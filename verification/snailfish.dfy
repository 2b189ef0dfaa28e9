/** Snailfish numbers (2021/src/bin/day18.rs), kept as the flat sequence of
    symbols of their text. A `Tree` gives the meaning of such a sequence:
    every well-formed number is the flattening of exactly one tree. */
module Snailfish {
  import opened Outcomes

  datatype Symbol = Open | Close | Scalar(value: nat)

  datatype SnailError =
    | BadSymbol(byte: char)
    | BadNumber
    | IncompleteNumber
    | MissingCarry
    | UnmatchedOpen
    | TooDeep
    | Unbalanced
    | OutOfFuel
    | EmptyHomework

  /** The symbol a byte of the text stands for: a bracket, a digit, nothing
      for a comma, and an error for anything else. */
  function FromByte(c: char): (r: Result<Option<Symbol>, SnailError>)
    ensures c == '[' <==> r == Ok(Some(Open))
    ensures c == ']' <==> r == Ok(Some(Close))
    ensures c == ',' <==> r == Ok(None)
    ensures '0' <= c <= '9' <==> r.Ok? && r.value.Some? && r.value.value.Scalar?
    ensures '0' <= c <= '9' ==> r.value.value.value == c as int - '0' as int
    ensures r.Err? ==> r.error == BadSymbol(c)
  {
    if c == '[' then Ok(Some(Open))
    else if c == ']' then Ok(Some(Close))
    else if '0' <= c <= '9' then Ok(Some(Scalar(c as int - '0' as int)))
    else if c == ',' then Ok(None)
    else Err(BadSymbol(c))
  }

  /** The decimal digits of `n`. */
  function Decimal(n: nat): (s: string)
    ensures n <= 9 ==> s == [('0' as int + n) as char]
    ensures |s| >= 1 && Displayed(s)
  {
    if n < 10 then [('0' as int + n) as char]
    else Decimal(n / 10) + [('0' as int + n % 10) as char]
  }

  function SymbolText(x: Symbol): string
  {
    match x
    case Open => "["
    case Close => "]"
    case Scalar(n) => Decimal(n)
  }

  /** Displayed text: brackets and digits only. */
  predicate Displayed(text: string)
  {
    forall k :: 0 <= k < |text| ==> text[k] == '[' || text[k] == ']' || '0' <= text[k] <= '9'
  }

  /** The text of a number: its symbols one after another, without commas,
      so one byte per symbol when every scalar is a single digit. */
  function Display(s: seq<Symbol>): (r: string)
    ensures Displayed(r)
    ensures |r| >= |s|
    ensures Digits(s) ==> |r| == |s|
    decreases |s|
  {
    if s == [] then ""
    else
      var init := s[..|s| - 1];
      assert Digits(s) ==> Digits(init) by {
        assert forall k :: 0 <= k < |init| ==> init[k] == s[k];
      }
      Display(init) + SymbolText(s[|s| - 1])
  }

  /** The symbols of `text`, skipping commas; the first bad byte is an error. */
  function ParseSymbols(text: string): (r: Result<seq<Symbol>, SnailError>)
    ensures r.Err? <==> exists k :: 0 <= k < |text| && FromByte(text[k]).Err?
    decreases |text|
  {
    if text == [] then Ok([])
    else
      var init := text[..|text| - 1];
      assert forall k :: 0 <= k < |init| ==> init[k] == text[k];
      match ParseSymbols(init)
      case Err(e) => Err(e)
      case Ok(syms) =>
        match FromByte(text[|text| - 1])
        case Err(e) => Err(e)
        case Ok(None) => Ok(syms)
        case Ok(Some(x)) => Ok(syms + [x])
  }

  /** Reads a number from its text, byte by byte. */
  method ParseNumber(text: string) returns (r: Result<seq<Symbol>, SnailError>)
    ensures r == ParseSymbols(text)
  {
    var symbols: seq<Symbol> := [];
    for i := 0 to |text|
      invariant ParseSymbols(text[..i]) == Ok(symbols)
    {
      assert text[..i + 1][..i] == text[..i];
      var symbol := FromByte(text[i]);
      if symbol.Err? {
        ParseStops(text[..i + 1], text[i + 1..]);
        assert text[..i + 1] + text[i + 1..] == text;
        return Err(symbol.error);
      }
      if symbol.value.Some? {
        symbols := symbols + [symbol.value.value];
      }
    }
    assert text[..|text|] == text;
    r := Ok(symbols);
  }

  lemma {:induction false} ParseStops(a: string, b: string)
    requires ParseSymbols(a).Err?
    ensures ParseSymbols(a + b) == ParseSymbols(a)
    decreases |b|
  {
    if b == [] {
      assert a + b == a;
    } else {
      assert (a + b)[..|a + b| - 1] == a + b[..|b| - 1];
      ParseStops(a, b[..|b| - 1]);
    }
  }

  /** Every scalar is a single digit. */
  predicate Digits(s: seq<Symbol>)
  {
    forall k :: 0 <= k < |s| && s[k].Scalar? ==> s[k].value <= 9
  }

  /** Reading the text of a number whose scalars are single digits gives
      back the same symbols. */
  lemma {:induction false} ParseDisplay(s: seq<Symbol>)
    requires Digits(s)
    ensures ParseSymbols(Display(s)) == Ok(s)
    decreases |s|
  {
    if s != [] {
      var init, last := s[..|s| - 1], s[|s| - 1];
      var c := DisplayLast(s);
      ParseDisplay(init);
      ParseByte(Display(init), c, init, last);
      assert init + [last] == s;
    }
  }

  /** The text of single-digit symbols ends in the one byte of the last. */
  lemma DisplayLast(s: seq<Symbol>) returns (c: char)
    requires s != [] && Digits(s)
    ensures Digits(s[..|s| - 1])
    ensures Display(s) == Display(s[..|s| - 1]) + [c]
    ensures FromByte(c) == Ok(Some(s[|s| - 1]))
  {
    var init := s[..|s| - 1];
    assert forall k :: 0 <= k < |init| ==> init[k] == s[k];
    SymbolByte(s[|s| - 1]);
    c := SymbolText(s[|s| - 1])[0];
    assert SymbolText(s[|s| - 1]) == [c];
  }

  /** One more byte standing for a symbol adds that symbol. */
  lemma ParseByte(prefix: string, c: char, syms: seq<Symbol>, x: Symbol)
    requires ParseSymbols(prefix) == Ok(syms) && FromByte(c) == Ok(Some(x))
    ensures ParseSymbols(prefix + [c]) == Ok(syms + [x])
  {
    assert (prefix + [c])[..|prefix|] == prefix;
  }

  /** A bracket or a single digit is one byte, read back as itself. */
  lemma SymbolByte(x: Symbol)
    requires x.Scalar? ==> x.value <= 9
    ensures |SymbolText(x)| == 1 && FromByte(SymbolText(x)[0]) == Ok(Some(x))
  {
  }

  // ---------------------------------------------------------------------
  // The meaning of a symbol sequence

  datatype Tree = Leaf(n: nat) | Pair(left: Tree, right: Tree)

  function Flatten(t: Tree): (s: seq<Symbol>)
    ensures |s| >= 1
  {
    match t
    case Leaf(n) => [Scalar(n)]
    case Pair(l, r) => [Open] + Flatten(l) + Flatten(r) + [Close]
  }

  /** A pair is worth three times its left plus twice its right. */
  function TreeMagnitude(t: Tree): nat
  {
    match t
    case Leaf(n) => n
    case Pair(l, r) => 3 * TreeMagnitude(l) + 2 * TreeMagnitude(r)
  }

  function Max(a: int, b: int): int
  {
    if a < b then b else a
  }

  /** How many pairs enclose the deepest scalar. */
  function TreeDepth(t: Tree): nat
  {
    match t
    case Leaf(_) => 0
    case Pair(l, r) => 1 + Max(TreeDepth(l), TreeDepth(r))
  }

  /** Every scalar is below ten. */
  predicate AllSmall(t: Tree)
  {
    match t
    case Leaf(n) => n < 10
    case Pair(l, r) => AllSmall(l) && AllSmall(r)
  }

  function Delta(x: Symbol): int
  {
    match x
    case Open => 1
    case Close => -1
    case Scalar(_) => 0
  }

  /** Opens minus closes. */
  function Net(s: seq<Symbol>): int
    decreases |s|
  {
    if s == [] then 0 else Net(s[..|s| - 1]) + Delta(s[|s| - 1])
  }

  lemma NetSnoc(s: seq<Symbol>, k: nat)
    requires k < |s|
    ensures Net(s[..k + 1]) == Net(s[..k]) + Delta(s[k])
  {
    assert s[..k + 1][..k] == s[..k];
  }

  lemma {:induction false} NetConcat(a: seq<Symbol>, b: seq<Symbol>)
    ensures Net(a + b) == Net(a) + Net(b)
    decreases |b|
  {
    if b == [] {
      assert a + b == a;
    } else {
      assert (a + b)[..|a + b| - 1] == a + b[..|b| - 1];
      NetConcat(a, b[..|b| - 1]);
    }
  }

  /** The deepest nesting reached by any prefix. */
  function PeakNet(s: seq<Symbol>): (r: int)
    ensures r >= 0 && r >= Net(s)
    decreases |s|
  {
    if s == [] then 0 else Max(PeakNet(s[..|s| - 1]), Net(s))
  }

  lemma {:induction false} PeakAtLeast(s: seq<Symbol>, k: nat)
    requires k <= |s|
    ensures PeakNet(s) >= Net(s[..k])
    decreases |s|
  {
    if k < |s| {
      PeakAtLeast(s[..|s| - 1], k);
      assert s[..|s| - 1][..k] == s[..k];
    } else {
      assert s[..k] == s;
    }
  }

  lemma {:induction false} PeakConcat(a: seq<Symbol>, b: seq<Symbol>)
    ensures PeakNet(a + b) == Max(PeakNet(a), Net(a) + PeakNet(b))
    decreases |b|
  {
    if b == [] {
      assert a + b == a;
    } else {
      var init := b[..|b| - 1];
      assert (a + b)[..|a + b| - 1] == a + init;
      PeakConcat(a, init);
      NetConcat(a, b);
    }
  }

  /** The symbols of a tree open and close in balance, every non-empty
      proper prefix is still open, and the last symbol closes something. */
  lemma {:induction false} TreeShape(t: Tree)
    ensures Unit(Flatten(t))
    ensures var s := Flatten(t);
      s[|s| - 1] != Open
      && (s[0] == Open <==> t.Pair?)
      && (s[|s| - 1] == Close <==> t.Pair?)
  {
    match t
    case Leaf(n) =>
    case Pair(l, r) =>
      TreeShape(l);
      TreeShape(r);
      PairShape(l, r);
  }

  /** Balanced, and still open after every non-empty proper prefix. */
  ghost predicate Unit(s: seq<Symbol>)
  {
    Net(s) == 0 && forall k :: 0 < k < |s| ==> Net(s[..k]) > 0
  }

  lemma UnitPrefix(s: seq<Symbol>, j: nat)
    requires Unit(s) && j <= |s|
    ensures Net(s[..j]) >= 0
  {
    if j == |s| {
      assert s[..j] == s;
    } else if j == 0 {
      assert s[..j] == [];
    }
  }

  lemma PairPrefixLeft(L: seq<Symbol>, R: seq<Symbol>, k: nat)
    requires Unit(L) && 0 < k <= |L| + 1
    ensures Net(([Open] + L + R + [Close])[..k]) > 0
  {
    assert ([Open] + L + R + [Close])[..k] == [Open] + L[..k - 1];
    NetConcat([Open], L[..k - 1]);
    UnitPrefix(L, k - 1);
  }

  lemma PairPrefixRight(L: seq<Symbol>, R: seq<Symbol>, k: nat)
    requires Unit(L) && Unit(R) && |L| + 1 < k < |L| + |R| + 2
    ensures Net(([Open] + L + R + [Close])[..k]) > 0
  {
    var j := k - 1 - |L|;
    assert ([Open] + L + R + [Close])[..k] == ([Open] + L) + R[..j];
    NetConcat([Open] + L, R[..j]);
    NetConcat([Open], L);
    UnitPrefix(R, j);
  }

  lemma PairShape(l: Tree, r: Tree)
    requires Unit(Flatten(l)) && Unit(Flatten(r))
    ensures Unit(Flatten(Pair(l, r)))
  {
    var L := Flatten(l);
    var R := Flatten(r);
    var s := Flatten(Pair(l, r));
    assert s == [Open] + L + R + [Close];
    forall k | 0 < k < |s|
      ensures Net(s[..k]) > 0
    {
      if k <= |L| + 1 {
        PairPrefixLeft(L, R, k);
      } else {
        PairPrefixRight(L, R, k);
      }
    }
    assert Net(s) == 0 by {
      NetConcat([Open] + L + R, [Close]);
      NetConcat([Open] + L, R);
      NetConcat([Open], L);
    }
  }

  /** The nesting of a tree's symbols is the depth of the tree. */
  lemma {:induction false} TreePeak(t: Tree)
    ensures PeakNet(Flatten(t)) == TreeDepth(t)
  {
    match t
    case Leaf(n) =>
      assert Flatten(t)[..0] == [];
    case Pair(l, r) =>
      TreePeak(l);
      TreePeak(r);
      TreeShape(l);
      PairPeak(Flatten(l), Flatten(r));
  }

  lemma PairPeak(L: seq<Symbol>, R: seq<Symbol>)
    requires Net(L) == 0
    ensures PeakNet([Open] + L + R + [Close]) == 1 + Max(PeakNet(L), PeakNet(R))
  {
    OpenPeak(L);
    PeakConcat([Open] + L, R);
    NetConcat([Open], L);
    NetConcat([Open] + L, R);
    ClosePeak([Open] + L + R);
  }

  lemma OpenPeak(L: seq<Symbol>)
    ensures PeakNet([Open] + L) == 1 + PeakNet(L)
  {
    assert PeakNet([Open]) == 1 by {
      assert [Open][..0] == [];
    }
    PeakConcat([Open], L);
  }

  lemma ClosePeak(s: seq<Symbol>)
    ensures PeakNet(s + [Close]) == PeakNet(s)
  {
    assert (s + [Close])[..|s|] == s;
  }

  /** No prefix of a number's symbols closes more than it opened. */
  lemma PrefixNonNegative(t: Tree, k: nat)
    requires k <= |Flatten(t)|
    ensures Net(Flatten(t)[..k]) >= 0
  {
    TreeShape(t);
    if k == |Flatten(t)| {
      assert Flatten(t)[..k] == Flatten(t);
    } else if k == 0 {
      assert Flatten(t)[..k] == [];
    }
  }

  lemma NoTreeIfNegative(s: seq<Symbol>, k: nat)
    requires k <= |s| && Net(s[..k]) < 0
    ensures forall t :: Flatten(t) != s
  {
    forall t | |Flatten(t)| == |s|
      ensures Flatten(t) != s
    {
      PrefixNonNegative(t, k);
    }
  }

  // ---------------------------------------------------------------------
  // Magnitude

  /** Position `k` ends the left half of a pair: a non-open symbol after
      which exactly the outer pair is open. */
  predicate HitAt(s: seq<Symbol>, k: int)
  {
    1 <= k < |s| && s[k] != Open && Net(s[..k + 1]) == 1
  }

  /** In a pair's symbols, the left half ends at its own length and not
      before. */
  lemma PairHit(l: Tree, r: Tree)
    ensures var s := Flatten(Pair(l, r));
      var n := |Flatten(l)|;
      HitAt(s, n) && forall k :: 1 <= k < n ==> !HitAt(s, k)
  {
    var L, R := Flatten(l), Flatten(r);
    var s := Flatten(Pair(l, r));
    assert s == [Open] + L + R + [Close];
    TreeShape(l);
    assert HitAt(s, |L|) by {
      LeftPrefix(L, R, |L|);
      assert L[..|L|] == L;
    }
    forall k | 1 <= k < |L|
      ensures !HitAt(s, k)
    {
      LeftPrefix(L, R, k);
    }
  }

  /** Inside the left half of a pair, the nesting is one more than in the
      left half alone. */
  lemma LeftPrefix(L: seq<Symbol>, R: seq<Symbol>, k: nat)
    requires 1 <= k <= |L|
    ensures var s := [Open] + L + R + [Close];
      s[k] == L[k - 1] && Net(s[..k + 1]) == 1 + Net(L[..k])
  {
    var s := [Open] + L + R + [Close];
    assert s[..k + 1] == [Open] + L[..k];
    NetConcat([Open], L[..k]);
  }

  lemma MagnitudeSplit(s: seq<Symbol>, i: nat)
    requires HitAt(s, i)
    requires forall k :: 1 <= k < i ==> !HitAt(s, k)
    ensures forall t :: Flatten(t) == s ==>
      t.Pair? && i + 2 < |s| && Flatten(t.left) == s[1..i + 1] && Flatten(t.right) == s[i + 1..|s| - 1]
  {
    forall t | Flatten(t) == s
      ensures t.Pair? && i + 2 < |s| && Flatten(t.left) == s[1..i + 1] && Flatten(t.right) == s[i + 1..|s| - 1]
    {
      match t
      case Pair(l, r) =>
        PairHit(l, r);
        var L := Flatten(l);
        var R := Flatten(r);
        assert i == |L|;
        assert s[1..i + 1] == L;
        assert s[i + 1..|s| - 1] == R;
    }
  }

  lemma NoTreeIfNoHit(s: seq<Symbol>)
    requires s != [] && s[0] == Open
    requires forall k :: 1 <= k < |s| ==> !HitAt(s, k)
    ensures forall t :: Flatten(t) != s
  {
    forall t
      ensures Flatten(t) != s
    {
      if Flatten(t) == s {
        match t
        case Pair(l, r) =>
          PairHit(l, r);
      }
    }
  }

  /** The magnitude of a number: a scalar is worth itself, a pair is split
      where its left half ends and weighed 3 to 2. */
  method Magnitude(symbols: seq<Symbol>) returns (r: Result<nat, SnailError>)
    ensures symbols == [] ==> r.Err?
    ensures forall t :: Flatten(t) == symbols ==> r == Ok(TreeMagnitude(t))
    decreases |symbols|
  {
    if symbols == [] {
      return Err(BadNumber);
    }
    if symbols[0].Scalar? {
      return Ok(symbols[0].value);
    }
    var depth := 0;
    for i := 0 to |symbols|
      invariant depth == Net(symbols[..i]) && depth >= 0
      invariant i > 0 ==> symbols[0] == Open
      invariant forall k :: 1 <= k < i ==> !HitAt(symbols, k)
    {
      NetSnoc(symbols, i);
      var sym := symbols[i];
      if sym == Open {
        depth := depth + 1;
      } else {
        if sym == Close {
          if depth == 0 {
            NoTreeIfNegative(symbols, i + 1);
            return Err(BadNumber);
          }
          depth := depth - 1;
        }
        if depth == 1 {
          var sep := i + 1;
          MagnitudeSplit(symbols, i);
          if sep > |symbols| - 1 {
            return Err(BadNumber);
          }
          var left := Magnitude(symbols[1..sep]);
          if left.Err? {
            return Err(left.error);
          }
          var right := Magnitude(symbols[sep..|symbols| - 1]);
          if right.Err? {
            return Err(right.error);
          }
          return Ok(3 * left.value + 2 * right.value);
        }
      }
    }
    NoTreeIfNoHit(symbols);
    return Err(BadNumber);
  }

  /** The deepest nesting of a number; closing more than was opened is an
      error. */
  method MaxDepth(symbols: seq<Symbol>) returns (r: Result<nat, SnailError>)
    ensures r.Err? <==> exists k :: 0 < k <= |symbols| && Net(symbols[..k]) < 0
    ensures r.Ok? ==> r.value == PeakNet(symbols)
  {
    var depth: nat := 0;
    var result: nat := 0;
    for i := 0 to |symbols|
      invariant depth == Net(symbols[..i]) && result == PeakNet(symbols[..i])
      invariant forall k :: 0 < k <= i ==> Net(symbols[..k]) >= 0
    {
      NetSnoc(symbols, i);
      assert symbols[..i + 1][..i] == symbols[..i];
      match symbols[i]
      case Open =>
        depth := depth + 1;
        result := Max(result, depth);
      case Close =>
        if depth == 0 {
          return Err(Unbalanced);
        }
        depth := depth - 1;
      case Scalar(_) =>
    }
    assert symbols[..|symbols|] == symbols;
    r := Ok(result);
  }

  /** For a number, the deepest nesting is the depth of its tree. */
  lemma MaxDepthOfTree(t: Tree)
    ensures (forall k :: 0 < k <= |Flatten(t)| ==> Net(Flatten(t)[..k]) >= 0)
    ensures PeakNet(Flatten(t)) == TreeDepth(t)
  {
    TreeShape(t);
    TreePeak(t);
    assert Flatten(t)[..|Flatten(t)|] == Flatten(t);
  }

  // ---------------------------------------------------------------------
  // One reduction step, as a reference

  /** The position of the last scalar, if any. */
  function LastScalarIndex(s: seq<Symbol>): (r: Option<nat>)
    ensures r.Some? ==> r.value < |s| && s[r.value].Scalar?
    ensures r.Some? ==> forall k :: r.value < k < |s| ==> !s[k].Scalar?
    ensures r.None? ==> forall k :: 0 <= k < |s| ==> !s[k].Scalar?
    decreases |s|
  {
    if s == [] then None
    else if s[|s| - 1].Scalar? then Some(|s| - 1)
    else LastScalarIndex(s[..|s| - 1])
  }

  /** The position of the first scalar, if any. */
  function FirstScalarIndex(s: seq<Symbol>): (r: Option<nat>)
    ensures r.Some? ==> r.value < |s| && s[r.value].Scalar?
    ensures r.Some? ==> forall k :: 0 <= k < r.value ==> !s[k].Scalar?
    ensures r.None? ==> forall k :: 0 <= k < |s| ==> !s[k].Scalar?
    decreases |s|
  {
    if s == [] then None
    else if s[0].Scalar? then Some(0)
    else
      var r := FirstScalarIndex(s[1..]);
      if r.Some? then Some(r.value + 1) else None
  }

  /** `s` with `c` added to its last scalar, if it has one. */
  function AddToLastScalar(s: seq<Symbol>, c: nat): (r: seq<Symbol>)
    ensures |r| == |s|
  {
    match LastScalarIndex(s)
    case None => s
    case Some(k) => s[k := Scalar(s[k].value + c)]
  }

  /** `s` with `c` added to its first scalar, if it has one. */
  function AddToFirstScalar(s: seq<Symbol>, c: nat): (r: seq<Symbol>)
    ensures |r| == |s|
  {
    match FirstScalarIndex(s)
    case None => s
    case Some(k) => s[k := Scalar(s[k].value + c)]
  }

  /** The halves a scalar splits into: they add up to it and the right one
      is at most one more than the left one. */
  function SplitValue(n: nat): (p: (nat, nat))
    ensures p.0 + p.1 == n && p.0 <= p.1 <= p.0 + 1
  {
    (n / 2, n - n / 2)
  }

  function Halves(n: nat): seq<Symbol>
  {
    [Open, Scalar(SplitValue(n).0), Scalar(SplitValue(n).1), Close]
  }

  /** Why the symbols after an exploding open are not "scalar, scalar, close". */
  function ExplodeCheck(rest: seq<Symbol>): Option<SnailError>
  {
    if rest == [] then Some(IncompleteNumber)
    else if !rest[0].Scalar? then Some(MissingCarry)
    else ExplodeRightCheck(rest[1..])
  }

  function ExplodeRightCheck(rest: seq<Symbol>): Option<SnailError>
  {
    if rest == [] then Some(IncompleteNumber)
    else if !rest[0].Scalar? then Some(MissingCarry)
    else if |rest| == 1 then Some(IncompleteNumber)
    else if rest[1] != Close then Some(UnmatchedOpen)
    else None
  }

  /** The pair [a,b] that follows `prefix` explodes: a joins the last scalar
      before it, b the first scalar after it, and the pair becomes 0. */
  function ExplodeAt(prefix: seq<Symbol>, rest: seq<Symbol>): (r: seq<Symbol>)
    requires ExplodeCheck(rest).None?
    ensures |r| + 3 == |prefix| + 1 + |rest|
  {
    AddToLastScalar(prefix, rest[0].value) + [Scalar(0)] + AddToFirstScalar(rest[3..], rest[1].value)
  }

  /** An open that starts a fifth level of nesting. */
  predicate DeepOpenAt(s: seq<Symbol>, q: nat)
    requires q < |s|
  {
    s[q] == Open && Net(s[..q]) == 4
  }

  function FirstDeepOpen(s: seq<Symbol>): (r: Option<nat>)
    ensures r.Some? ==> r.value < |s| && DeepOpenAt(s, r.value)
    ensures r.Some? ==> forall q :: 0 <= q < r.value ==> !DeepOpenAt(s, q)
    ensures r.None? ==> forall q :: 0 <= q < |s| ==> !DeepOpenAt(s, q)
    decreases |s|
  {
    if s == [] then None
    else
      var init := s[..|s| - 1];
      assert forall q :: 0 <= q < |init| ==> init[q] == s[q] && init[..q] == s[..q];
      assert forall q :: 0 <= q < |init| ==> (DeepOpenAt(init, q) <==> DeepOpenAt(s, q));
      match FirstDeepOpen(init)
      case Some(k) => Some(k)
      case None => if DeepOpenAt(s, |s| - 1) then Some(|s| - 1) else None
  }

  predicate Big(x: Symbol)
  {
    x.Scalar? && x.value >= 10
  }

  function FirstBig(s: seq<Symbol>): (r: Option<nat>)
    ensures r.Some? ==> r.value < |s| && Big(s[r.value]) && forall q :: 0 <= q < r.value ==> !Big(s[q])
    ensures r.None? ==> forall q :: 0 <= q < |s| ==> !Big(s[q])
    decreases |s|
  {
    if s == [] then None
    else if Big(s[0]) then Some(0)
    else
      var r := FirstBig(s[1..]);
      if r.Some? then Some(r.value + 1) else None
  }

  /** A nesting deeper than four has an open that starts the fifth level. */
  lemma {:induction false} DeepOpenExists(s: seq<Symbol>)
    requires PeakNet(s) > 4
    ensures FirstDeepOpen(s).Some?
    decreases |s|
  {
    var init := s[..|s| - 1];
    if PeakNet(init) > 4 {
      DeepOpenExists(init);
      var k := FirstDeepOpen(init).value;
      assert init[..k] == s[..k];
      assert DeepOpenAt(s, k);
    } else {
      assert DeepOpenAt(s, |s| - 1);
    }
  }

  /** One reduction step of a number: the leftmost pair nested inside four
      pairs explodes; only when there is none does the leftmost scalar of
      ten or more split; otherwise the number is unchanged. A bare scalar
      below ten is incomplete. An explosion shortens the number by three
      symbols and a split lengthens it by three. */
  function ReduceOnceSpec(t: Tree): (r: Result<seq<Symbol>, SnailError>)
    ensures r.Ok? && |r.value| < |Flatten(t)| ==> TreeDepth(t) > 4
    ensures r.Ok? && |r.value| > |Flatten(t)| ==> TreeDepth(t) <= 4
    ensures r.Ok? && TreeDepth(t) > 4 ==> |r.value| + 3 == |Flatten(t)|
  {
    var s := Flatten(t);
    if TreeDepth(t) > 4 then
      match FirstDeepOpen(s)
      case None => Err(TooDeep)
      case Some(k) =>
        match ExplodeCheck(s[k + 1..])
        case Some(e) => Err(e)
        case None => Ok(ExplodeAt(s[..k], s[k + 1..]))
    else
      match FirstBig(s)
      case Some(k) => Ok(s[..k] + Halves(s[k].value) + s[k + 1..])
      case None => if t.Leaf? then Err(IncompleteNumber) else Ok(s)
  }

  lemma {:induction false} TreeNoBig(t: Tree)
    ensures FirstBig(Flatten(t)).None? <==> AllSmall(t)
  {
    match t
    case Leaf(n) =>
    case Pair(l, r) =>
      TreeNoBig(l);
      TreeNoBig(r);
      var L, R := Flatten(l), Flatten(r);
      assert NoBig(Flatten(t)) <==> NoBig(L) && NoBig(R) by {
        NoBigPair(L, R);
      }
      NoBigFirst(Flatten(t));
      NoBigFirst(L);
      NoBigFirst(R);
  }

  /** No scalar of ten or more. */
  predicate NoBig(s: seq<Symbol>)
  {
    forall q :: 0 <= q < |s| ==> !Big(s[q])
  }

  lemma NoBigFirst(s: seq<Symbol>)
    ensures FirstBig(s).None? <==> NoBig(s)
  {
  }

  lemma NoBigPair(L: seq<Symbol>, R: seq<Symbol>)
    ensures NoBig([Open] + L + R + [Close]) <==> NoBig(L) && NoBig(R)
  {
    var s := [Open] + L + R + [Close];
    assert forall q :: 0 <= q < |L| ==> s[q + 1] == L[q];
    assert forall q :: 0 <= q < |R| ==> s[q + 1 + |L|] == R[q];
  }

  /** A reduced number: a pair nested at most four deep whose scalars are
      all below ten. */
  predicate Reduced(t: Tree)
  {
    t.Pair? && TreeDepth(t) <= 4 && AllSmall(t)
  }

  /** A reduction step leaves a number unchanged exactly when it is reduced. */
  lemma ReducedExactly(t: Tree)
    ensures ReduceOnceSpec(t) == Ok(Flatten(t)) <==> Reduced(t)
  {
    TreeNoBig(t);
  }

  // ---------------------------------------------------------------------
  // The reducer

  datatype IsDone = No | Yes

  /** Copies `remaining` into `built` symbol by symbol, exploding the first
      pair nested inside four pairs or, when nothing will explode, splitting
      the first scalar of ten or more; `depth` is the current nesting. */
  class ReducerOnce {
    var remaining: seq<Symbol>
    var built: seq<Symbol>
    var isExplosive: bool
    var depth: nat

    /** `explosive` says whether the number nests deeper than four. */
    constructor (number: seq<Symbol>, explosive: bool)
      ensures remaining == number && built == [] && isExplosive == explosive && depth == 0
    {
      remaining := number;
      built := [];
      isExplosive := explosive;
      depth := 0;
    }

    /** Takes the next symbol of the number being reduced. */
    method Pop() returns (r: Result<Symbol, SnailError>)
      modifies this
      ensures old(remaining) == [] ==> r == Err(IncompleteNumber) && remaining == []
      ensures old(remaining) != [] ==> r == Ok(old(remaining)[0]) && remaining == old(remaining)[1..]
      ensures built == old(built) && depth == old(depth) && isExplosive == old(isExplosive)
    {
      if remaining == [] {
        return Err(IncompleteNumber);
      }
      r := Ok(remaining[0]);
      remaining := remaining[1..];
    }

    /** Takes the left scalar of an exploding pair and adds it to the last
        scalar already built. */
    method ExplodeLeft() returns (r: Result<(), SnailError>)
      modifies this
      ensures old(remaining) == [] ==> r == Err(IncompleteNumber)
      ensures old(remaining) != [] && !old(remaining)[0].Scalar? ==> r == Err(MissingCarry)
      ensures old(remaining) != [] && old(remaining)[0].Scalar? ==>
        r.Ok? && remaining == old(remaining)[1..]
        && built == AddToLastScalar(old(built), old(remaining)[0].value)
      ensures r.Err? ==> built == old(built)
      ensures depth == old(depth) && isExplosive == old(isExplosive)
    {
      var carry := Pop();
      if carry.Err? {
        return Err(carry.error);
      }
      if !carry.value.Scalar? {
        return Err(MissingCarry);
      }
      built := AddToLastScalar(built, carry.value.value);
      r := Ok(());
    }

    /** Takes the right scalar and the close of an exploding pair, then
        copies the rest of the number, adding the scalar to the first scalar
        met. */
    method ExplodeRight() returns (r: Result<(), SnailError>)
      modifies this
      ensures r.Err? <==> ExplodeRightCheck(old(remaining)).Some?
      ensures r.Err? ==> r.error == ExplodeRightCheck(old(remaining)).value && built == old(built)
      ensures r.Ok? ==> remaining == []
      ensures r.Ok? ==> built == old(built) + AddToFirstScalar(old(remaining)[2..], old(remaining)[0].value)
      ensures depth == old(depth) && isExplosive == old(isExplosive)
    {
      var first := Pop();
      if first.Err? {
        return Err(first.error);
      }
      if !first.value.Scalar? {
        return Err(MissingCarry);
      }
      var carry := first.value.value;
      var close := Pop();
      if close.Err? {
        return Err(close.error);
      }
      if close.value != Close {
        return Err(UnmatchedOpen);
      }
      CopyRest(carry);
      r := Ok(());
    }

    /** Copies the rest of the number, adding `carry` to the first scalar
        met. */
    method CopyRest(carry: nat)
      modifies this
      ensures remaining == [] && built == old(built) + AddToFirstScalar(old(remaining), carry)
      ensures depth == old(depth) && isExplosive == old(isExplosive)
    {
      var src, out := remaining, built;
      var j, left := 0, carry;
      while j < |src|
        invariant j <= |src|
        invariant out == old(built) + AddToFirstScalar(src[..j], carry)
        invariant left == if FirstScalarIndex(src[..j]).None? then carry else 0
      {
        var sym := src[j];
        ghost var untouched := FirstScalarIndex(src[..j]).None?;
        ghost var next := if untouched && sym.Scalar? then Scalar(sym.value + carry) else sym;
        assert AddToFirstScalar(src[..j + 1], carry) == AddToFirstScalar(src[..j], carry) + [next]
          && (FirstScalarIndex(src[..j + 1]).None? <==> untouched && !sym.Scalar?) by {
          assert src[..j + 1] == src[..j] + [sym];
          AddFirstSnoc(src[..j], sym, carry);
        }
        if sym.Scalar? && left != 0 {
          sym := Scalar(sym.value + left);
          left := 0;
        }
        assert sym == next;
        out := out + [sym];
        j := j + 1;
      }
      assert src[..j] == src;
      remaining, built := [], out;
    }

    /** Explodes the pair whose open was just taken. */
    method Explode() returns (r: Result<(), SnailError>)
      modifies this
      ensures r.Err? <==> ExplodeCheck(old(remaining)).Some?
      ensures r.Err? ==> r.error == ExplodeCheck(old(remaining)).value
      ensures r.Ok? ==> remaining == [] && built == ExplodeAt(old(built), old(remaining))
      ensures depth == old(depth) && isExplosive == old(isExplosive)
    {
      var left := ExplodeLeft();
      if left.Err? {
        return left;
      }
      built := built + [Scalar(0)];
      r := ExplodeRight();
    }

    /** Splits scalar `n` and copies the rest of the number unchanged. */
    method Split(n: nat)
      modifies this
      ensures built == old(built) + Halves(n) + remaining
      ensures remaining == old(remaining) && depth == old(depth) && isExplosive == old(isExplosive)
    {
      var half := n / 2;
      built := built + [Open, Scalar(half), Scalar(n - half), Close];
      built := built + remaining;
    }

    /** An open either nests one level deeper or, at depth four, explodes. */
    method StepOpen() returns (r: Result<IsDone, SnailError>)
      modifies this
      ensures old(depth) < 4 ==>
        (r == Ok(No) && built == old(built) + [Open] && depth == old(depth) + 1 && remaining == old(remaining))
      ensures old(depth) == 4 ==>
        (ExplodeCheck(old(remaining)).Some? ==> r == Err(ExplodeCheck(old(remaining)).value))
        && (ExplodeCheck(old(remaining)).None? ==> r == Ok(Yes) && built == ExplodeAt(old(built), old(remaining)))
      ensures old(depth) > 4 ==> r == Err(TooDeep)
      ensures isExplosive == old(isExplosive)
    {
      if depth < 4 {
        built := built + [Open];
        depth := depth + 1;
        return Ok(No);
      }
      if depth != 4 {
        return Err(TooDeep);
      }
      var exploded := Explode();
      if exploded.Err? {
        return Err(exploded.error);
      }
      r := Ok(Yes);
    }

    /** A close leaves one level; leaving the outermost pair finishes. */
    method StepClose() returns (r: Result<IsDone, SnailError>)
      modifies this
      ensures old(depth) == 0 ==> r == Err(Unbalanced)
      ensures old(depth) > 0 ==>
        (built == old(built) + [Close] && depth == old(depth) - 1 && r == Ok(if depth > 0 then No else Yes))
      ensures remaining == old(remaining) && isExplosive == old(isExplosive)
    {
      if depth == 0 {
        return Err(Unbalanced);
      }
      built := built + [Close];
      depth := depth - 1;
      if depth > 0 {
        r := Ok(No);
      } else {
        r := Ok(Yes);
      }
    }

    /** A scalar is copied, unless it is ten or more and nothing will
        explode, in which case it splits. */
    method StepValue(n: nat) returns (r: Result<IsDone, SnailError>)
      modifies this
      ensures n < 10 || isExplosive ==> r == Ok(No) && built == old(built) + [Scalar(n)]
      ensures !(n < 10 || isExplosive) ==> r == Ok(Yes) && built == old(built) + Halves(n) + old(remaining)
      ensures remaining == old(remaining) && depth == old(depth) && isExplosive == old(isExplosive)
    {
      if n < 10 || isExplosive {
        built := built + [Scalar(n)];
        r := Ok(No);
      } else {
        Split(n);
        r := Ok(Yes);
      }
    }

    /** Processes the next symbol. */
    method Step() returns (r: Result<IsDone, SnailError>)
      modifies this
      ensures isExplosive == old(isExplosive)
      ensures old(remaining) == [] ==> r == Err(IncompleteNumber)
      ensures var s0, d0 := old(remaining), old(depth);
        s0 != [] && s0[0] == Open && d0 < 4 ==>
          r == Ok(No) && remaining == s0[1..] && built == old(built) + [Open] && depth == d0 + 1
      ensures var s0, d0 := old(remaining), old(depth);
        s0 != [] && s0[0] == Open && d0 == 4 ==>
          (ExplodeCheck(s0[1..]).Some? ==> r == Err(ExplodeCheck(s0[1..]).value))
          && (ExplodeCheck(s0[1..]).None? ==> r == Ok(Yes) && built == ExplodeAt(old(built), s0[1..]))
      ensures var s0, d0 := old(remaining), old(depth);
        s0 != [] && s0[0] == Open && d0 > 4 ==> r == Err(TooDeep)
      ensures var s0, d0 := old(remaining), old(depth);
        s0 != [] && s0[0] == Close && d0 == 0 ==> r == Err(Unbalanced)
      ensures var s0, d0 := old(remaining), old(depth);
        s0 != [] && s0[0] == Close && d0 > 0 ==>
          r == Ok(if d0 == 1 then Yes else No) && remaining == s0[1..] && built == old(built) + [Close]
          && depth == d0 - 1
      ensures var s0, d0 := old(remaining), old(depth);
        s0 != [] && s0[0].Scalar? && (s0[0].value < 10 || isExplosive) ==>
          r == Ok(No) && remaining == s0[1..] && built == old(built) + [s0[0]] && depth == d0
      ensures var s0 := old(remaining);
        s0 != [] && s0[0].Scalar? && !(s0[0].value < 10 || isExplosive) ==>
          r == Ok(Yes) && built == old(built) + Halves(s0[0].value) + s0[1..]
    {
      var sym := Pop();
      if sym.Err? {
        return Err(sym.error);
      }
      match sym.value
      case Open => r := StepOpen();
      case Close => r := StepClose();
      case Scalar(n) => r := StepValue(n);
    }

    /** Steps until done: the number after one explosion, one split, or
        neither. */
    method ReduceOnce() returns (r: Result<seq<Symbol>, SnailError>)
      requires built == [] && depth == 0
      requires isExplosive == (PeakNet(remaining) > 4)
      modifies this
      ensures forall t :: Flatten(t) == old(remaining) ==> r == ReduceOnceSpec(t)
    {
      ghost var s := remaining;
      assert s[..0] == [] && s[0..] == s;
      while true
        invariant Midway(s)
        decreases |remaining|
      {
        var done := Advance(s);
        if done.Err? {
          return Err(done.error);
        }
        if done.value == Yes {
          return Ok(built);
        }
      }
    }

    /** The symbols of `s` taken so far have been copied unchanged, and
        nothing has happened yet. */
    ghost predicate Midway(s: seq<Symbol>)
      reads this
    {
      MidwayAt(s, remaining, built, depth, isExplosive)
    }

    /** One step of `ReduceOnce`: either what it returns is decided, or one
        more symbol has been copied. */
    method Advance(ghost s: seq<Symbol>) returns (r: Result<IsDone, SnailError>)
      requires Midway(s)
      modifies this
      ensures r.Err? ==> Yields(s, Err(r.error))
      ensures r == Ok(Yes) ==> Yields(s, Ok(built))
      ensures r == Ok(No) ==> Midway(s) && |remaining| < old(|remaining|)
    {
      ghost var p := |s| - |remaining|;
      ghost var (rem0, built0, depth0) := (remaining, built, depth);
      assert p < |s| ==> remaining[0] == s[p] && remaining[1..] == s[p + 1..];
      r := Step();
      if r.Err? {
        if p == |s| {
          assert s[..p] == s;
          ExitIncomplete(s, isExplosive);
        } else if s[p] == Open {
          ExitBadExplosion(s, p, isExplosive, r.error);
        } else {
          ExitUnbalanced(s, p);
        }
      } else if r.value == Yes {
        if s[p] == Open {
          ExitExploded(s, p, isExplosive);
          assert built == ExplodeAt(s[..p], s[p + 1..]);
        } else if s[p].Scalar? {
          ExitSplit(s, p, isExplosive);
          assert built == s[..p] + Halves(s[p].value) + s[p + 1..];
        } else {
          ExitClosed(s, p, isExplosive);
          assert built == s[..p] + [Close];
        }
      } else {
        MidwayNext(s, rem0, built0, depth0, isExplosive);
        assert remaining == rem0[1..] && built == built0 + [rem0[0]] && depth == depth0 + Delta(rem0[0]);
      }
    }
  }

  /** The reducer's state, given as values. */
  ghost predicate MidwayAt(s: seq<Symbol>, remaining: seq<Symbol>, built: seq<Symbol>, depth: nat, isExplosive: bool)
  {
    |remaining| <= |s| && remaining == s[|s| - |remaining|..]
    && built == s[..|s| - |remaining|]
    && depth == Net(built) && depth <= 4
    && Scanned(s, |s| - |remaining|, isExplosive)
  }

  /** Copying a symbol that neither ends nor changes the number keeps the
      reducer midway. */
  lemma MidwayNext(s: seq<Symbol>, remaining: seq<Symbol>, built: seq<Symbol>, depth: nat, isExplosive: bool)
    requires MidwayAt(s, remaining, built, depth, isExplosive) && remaining != []
    requires (remaining[0] == Open && depth < 4)
      || (remaining[0] == Close && depth > 1)
      || (remaining[0].Scalar? && (remaining[0].value < 10 || isExplosive))
    ensures depth + Delta(remaining[0]) >= 0
    ensures MidwayAt(s, remaining[1..], built + [remaining[0]], depth + Delta(remaining[0]), isExplosive)
  {
    var p := |s| - |remaining|;
    assert remaining[0] == s[p] && remaining[1..] == s[p + 1..];
    ScannedStep(s, p, isExplosive);
    assert s[..p + 1] == s[..p] + [s[p]];
  }

  lemma {:induction false} AddFirstSnoc(a: seq<Symbol>, x: Symbol, c: nat)
    ensures FirstScalarIndex(a + [x]).None? <==> FirstScalarIndex(a).None? && !x.Scalar?
    ensures AddToFirstScalar(a + [x], c)
      == AddToFirstScalar(a, c) + [if FirstScalarIndex(a).None? && x.Scalar? then Scalar(x.value + c) else x]
  {
    var ax := a + [x];
    assert forall k :: 0 <= k < |a| ==> ax[k] == a[k];
    match FirstScalarIndex(a)
    case Some(k) =>
      assert FirstScalarIndex(ax) == Some(k) by {
        FirstScalarUnique(ax, k);
      }
    case None =>
      if x.Scalar? {
        FirstScalarUnique(ax, |a|);
      }
  }

  lemma FirstScalarUnique(s: seq<Symbol>, k: nat)
    requires k < |s| && s[k].Scalar? && forall q :: 0 <= q < k ==> !s[q].Scalar?
    ensures FirstScalarIndex(s) == Some(k)
  {
  }

  /** Every tree whose symbols are `s` reduces to `r` in one step. */
  ghost predicate Yields(s: seq<Symbol>, r: Result<seq<Symbol>, SnailError>)
  {
    forall t :: Flatten(t) == s ==> ReduceOnceSpec(t) == r
  }

  /** The reducer's progress before anything happened: `p` symbols copied,
      none of them a deep open, a big scalar (when nothing will explode) or
      a close that ended the number. */
  ghost predicate Scanned(s: seq<Symbol>, p: nat, isExplosive: bool)
  {
    p <= |s|
    && isExplosive == (PeakNet(s) > 4)
    && (forall q :: 0 <= q < p ==> !DeepOpenAt(s, q))
    && (!isExplosive ==> forall q :: 0 <= q < p ==> !Big(s[q]))
    && (forall q :: 0 < q <= p && s[q - 1] == Close ==> Net(s[..q]) > 0)
  }

  lemma ScannedStep(s: seq<Symbol>, p: nat, isExplosive: bool)
    requires Scanned(s, p, isExplosive) && p < |s| && 0 <= Net(s[..p]) <= 4
    requires (s[p] == Open && Net(s[..p]) < 4)
      || (s[p] == Close && Net(s[..p]) > 1)
      || (s[p].Scalar? && (s[p].value < 10 || isExplosive))
    ensures Scanned(s, p + 1, isExplosive) && Net(s[..p + 1]) == Net(s[..p]) + Delta(s[p])
  {
    NetSnoc(s, p);
  }

  /** The number ran out before the reducer finished. */
  lemma ExitIncomplete(s: seq<Symbol>, isExplosive: bool)
    requires Scanned(s, |s|, isExplosive) && 0 <= Net(s) <= 4
    ensures Yields(s, Err(IncompleteNumber))
  {
    forall t | Flatten(t) == s
      ensures ReduceOnceSpec(t) == Err(IncompleteNumber)
    {
      TreeShape(t);
      TreePeak(t);
      assert s[..|s|] == s;
      TreeNoBig(t);
    }
  }

  /** The pair that should explode is not two scalars. */
  lemma ExitBadExplosion(s: seq<Symbol>, p: nat, isExplosive: bool, e: SnailError)
    requires Scanned(s, p, isExplosive) && p < |s| && s[p] == Open && Net(s[..p]) == 4
    requires ExplodeCheck(s[p + 1..]) == Some(e)
    ensures Yields(s, Err(e))
  {
    FirstDeepOpenAt(s, p);
    forall t | Flatten(t) == s
      ensures ReduceOnceSpec(t) == Err(e)
    {
      TreePeak(t);
    }
  }

  /** A close with nothing open. */
  lemma ExitUnbalanced(s: seq<Symbol>, p: nat)
    requires p < |s| && s[p] == Close && Net(s[..p]) == 0
    ensures Yields(s, Err(Unbalanced))
  {
    NetSnoc(s, p);
    NoTreeIfNegative(s, p + 1);
  }

  lemma FirstDeepOpenAt(s: seq<Symbol>, p: nat)
    requires p < |s| && DeepOpenAt(s, p)
    requires forall q :: 0 <= q < p ==> !DeepOpenAt(s, q)
    ensures FirstDeepOpen(s) == Some(p) && PeakNet(s) > 4
  {
    NetSnoc(s, p);
    PeakAtLeast(s, p + 1);
  }

  /** The first deep pair explodes. */
  lemma ExitExploded(s: seq<Symbol>, p: nat, isExplosive: bool)
    requires Scanned(s, p, isExplosive) && p < |s| && s[p] == Open && Net(s[..p]) == 4
    requires ExplodeCheck(s[p + 1..]).None?
    ensures Yields(s, Ok(ExplodeAt(s[..p], s[p + 1..])))
  {
    FirstDeepOpenAt(s, p);
    forall t | Flatten(t) == s
      ensures ReduceOnceSpec(t) == Ok(ExplodeAt(s[..p], s[p + 1..]))
    {
      TreePeak(t);
    }
  }

  /** With nothing to explode, the first big scalar splits. */
  lemma ExitSplit(s: seq<Symbol>, p: nat, isExplosive: bool)
    requires Scanned(s, p, isExplosive) && p < |s| && Big(s[p]) && !isExplosive
    ensures Yields(s, Ok(s[..p] + Halves(s[p].value) + s[p + 1..]))
  {
    assert FirstBig(s) == Some(p) by {
      FirstBigAt(s, p);
    }
    forall t | Flatten(t) == s
      ensures ReduceOnceSpec(t) == Ok(s[..p] + Halves(s[p].value) + s[p + 1..])
    {
      TreePeak(t);
    }
  }

  lemma FirstBigAt(s: seq<Symbol>, p: nat)
    requires p < |s| && Big(s[p]) && forall q :: 0 <= q < p ==> !Big(s[q])
    ensures FirstBig(s) == Some(p)
  {
  }

  lemma ExitClosed(s: seq<Symbol>, p: nat, isExplosive: bool)
    requires Scanned(s, p, isExplosive) && p < |s|
    requires s[p] == Close && Net(s[..p]) == 1
    ensures Yields(s, Ok(s[..p] + [Close]))
  {
    NetSnoc(s, p);
    forall t | Flatten(t) == s
      ensures p + 1 == |s| && t.Pair?
    {
      ClosedIsWhole(t, p);
    }
    if p + 1 == |s| {
      assert s[..p] + [Close] == s;
      assert forall q :: 0 <= q < |s| ==> !DeepOpenAt(s, q);
      ShallowWithoutDeepOpen(s);
      forall t | Flatten(t) == s
        ensures ReduceOnceSpec(t) == Ok(s)
      {
        TreePeak(t);
      }
    }
  }

  /** In a number, only the last symbol brings the nesting back to zero. */
  lemma ClosedIsWhole(t: Tree, p: nat)
    requires p < |Flatten(t)| && Flatten(t)[p] == Close && Net(Flatten(t)[..p + 1]) == 0
    ensures p + 1 == |Flatten(t)| && t.Pair?
  {
    TreeShape(t);
  }

  lemma ShallowWithoutDeepOpen(s: seq<Symbol>)
    requires forall q :: 0 <= q < |s| ==> !DeepOpenAt(s, q)
    ensures PeakNet(s) <= 4
  {
    if PeakNet(s) > 4 {
      DeepOpenExists(s);
    }
  }

  // ---------------------------------------------------------------------
  // Reduction, addition and the homework

  /** One reduction step of a whole number. */
  method ReduceNumberOnce(symbols: seq<Symbol>) returns (r: Result<seq<Symbol>, SnailError>)
    ensures forall t :: Flatten(t) == symbols ==> r == ReduceOnceSpec(t)
  {
    var peak := MaxDepth(symbols);
    if peak.Err? {
      ghost var k :| 0 < k <= |symbols| && Net(symbols[..k]) < 0;
      NoTreeIfNegative(symbols, k);
      return Err(peak.error);
    }
    var reducer := new ReducerOnce(symbols, peak.value > 4);
    r := reducer.ReduceOnce();
  }

  /** Reduces until a step changes nothing, taking at most `fuel` steps
      beyond the first. A number reduced already comes back unchanged, and
      whatever comes back is left unchanged by a further step. */
  method Reduce(symbols: seq<Symbol>, fuel: nat) returns (r: Result<seq<Symbol>, SnailError>)
    ensures forall t :: Flatten(t) == symbols && Reduced(t) ==> r == Ok(symbols)
    ensures r.Ok? ==> forall t :: Flatten(t) == r.value ==> ReduceOnceSpec(t) == Ok(r.value)
  {
    var current := symbols;
    var next := ReduceNumberOnce(current);
    forall t | Flatten(t) == symbols && Reduced(t)
      ensures next == Ok(symbols)
    {
      ReducedExactly(t);
    }
    var steps := fuel;
    while next != Ok(current)
      invariant forall t :: Flatten(t) == current ==> next == ReduceOnceSpec(t)
      invariant (exists t :: Flatten(t) == symbols && Reduced(t)) ==> current == symbols && next == Ok(symbols)
      decreases steps
    {
      if next.Err? {
        return Err(next.error);
      }
      if steps == 0 {
        return Err(OutOfFuel);
      }
      steps := steps - 1;
      current := next.value;
      next := ReduceNumberOnce(current);
    }
    r := Ok(current);
  }

  /** The sum of two numbers: the pair of them, reduced. When that pair is
      already reduced it is the answer. */
  method Add(a: seq<Symbol>, b: seq<Symbol>, fuel: nat) returns (r: Result<seq<Symbol>, SnailError>)
    ensures forall ta, tb :: Flatten(ta) == a && Flatten(tb) == b && Reduced(Pair(ta, tb)) ==> r == Ok(Flatten(Pair(ta, tb)))
    ensures r.Ok? ==> forall t :: Flatten(t) == r.value ==> ReduceOnceSpec(t) == Ok(r.value)
  {
    var symbols := [Open] + a + b + [Close];
    r := Reduce(symbols, fuel);
  }

  /** The sum of the homework, added left to right; an empty homework is an
      error and a single number is its own sum. */
  method Sum(numbers: seq<seq<Symbol>>, fuel: nat) returns (r: Result<seq<Symbol>, SnailError>)
    ensures numbers == [] ==> r == Err(EmptyHomework)
    ensures |numbers| == 1 ==> r == Ok(numbers[0])
    ensures |numbers| >= 2 && r.Ok? ==> forall t :: Flatten(t) == r.value ==> ReduceOnceSpec(t) == Ok(r.value)
  {
    if numbers == [] {
      return Err(EmptyHomework);
    }
    var total := numbers[0];
    for i := 1 to |numbers|
      invariant i == 1 ==> total == numbers[0]
      invariant i >= 2 ==> forall t :: Flatten(t) == total ==> ReduceOnceSpec(t) == Ok(total)
    {
      var sum := Add(total, numbers[i], fuel);
      if sum.Err? {
        return Err(sum.error);
      }
      total := sum.value;
    }
    r := Ok(total);
  }

  /** Part one: the magnitude of the homework's sum. */
  method SolvePart1(numbers: seq<seq<Symbol>>, fuel: nat) returns (r: Result<nat, SnailError>)
    ensures numbers == [] ==> r == Err(EmptyHomework)
    ensures |numbers| == 1 ==> forall t :: Flatten(t) == numbers[0] ==> r == Ok(TreeMagnitude(t))
  {
    var sum := Sum(numbers, fuel);
    if sum.Err? {
      return Err(sum.error);
    }
    r := Magnitude(sum.value);
  }

  /** Part two: the largest magnitude of a sum of two different numbers of
      the homework, each pair added both ways. `magnitudes` holds every
      magnitude compared. */
  method SolvePart2(numbers: seq<seq<Symbol>>, fuel: nat) returns (r: Result<nat, SnailError>, ghost magnitudes: seq<nat>)
    ensures |numbers| < 2 ==> r == Ok(0)
    ensures r.Ok? ==> |magnitudes| == 2 * |numbers| * (|numbers| - 1)
    ensures r.Ok? ==> forall m :: m in magnitudes ==> m <= r.value
    ensures r.Ok? ==> r.value == 0 || r.value in magnitudes
  {
    var result := 0;
    magnitudes := [];
    for i := 0 to |numbers|
      invariant |magnitudes| == 2 * i * (if |numbers| == 0 then 0 else |numbers| - 1)
      invariant forall m :: m in magnitudes ==> m <= result
      invariant result == 0 || result in magnitudes
    {
      ghost var before := |magnitudes|;
      for j := 0 to |numbers|
        invariant |magnitudes| == before + 2 * (if j <= i then j else j - 1)
        invariant forall m :: m in magnitudes ==> m <= result
        invariant result == 0 || result in magnitudes
      {
        if i != j {
          var ab := Add(numbers[i], numbers[j], fuel);
          if ab.Err? {
            return Err(ab.error), magnitudes;
          }
          var m1 := Magnitude(ab.value);
          if m1.Err? {
            return Err(m1.error), magnitudes;
          }
          result := Max(result, m1.value);
          magnitudes := magnitudes + [m1.value];
          var ba := Add(numbers[j], numbers[i], fuel);
          if ba.Err? {
            return Err(ba.error), magnitudes;
          }
          var m2 := Magnitude(ba.value);
          if m2.Err? {
            return Err(m2.error), magnitudes;
          }
          result := Max(result, m2.value);
          magnitudes := magnitudes + [m2.value];
        }
      }
    }
    r := Ok(result);
  }

  // ---------------------------------------------------------------------
  // Examples

  function N(a: Tree, b: Tree): Tree { Pair(a, b) }
  function L(n: nat): Tree { Leaf(n) }

  /** [[[[[9,8],1],2],3],4] becomes [[[[0,9],2],3],4]. */
  lemma ExplodeLeftmost(t: Tree, exploded: Tree)
    requires t == N(N(N(N(N(L(9), L(8)), L(1)), L(2)), L(3)), L(4))
    requires exploded == N(N(N(N(L(0), L(9)), L(2)), L(3)), L(4))
    ensures ReduceOnceSpec(t) == Ok(Flatten(exploded))
  {
    var s := Flatten(t);
    LeftmostShape(t);
    LeftmostDeep(s);
    ExplosionStep(t, 4);
    ExplodeLeftmostPieces(s[..4], s[8..]);
  }

  const LeftmostRest: seq<Symbol> := [Scalar(1), Close, Scalar(2), Close, Scalar(3), Close, Scalar(4), Close]

  lemma LeftmostShape(t: Tree)
    requires t == N(N(N(N(N(L(9), L(8)), L(1)), L(2)), L(3)), L(4))
    ensures Flatten(t) == [Open, Open, Open, Open] + [Open, Scalar(9), Scalar(8), Close] + LeftmostRest
    ensures TreeDepth(t) == 5
  {
    var t1 := N(L(9), L(8));
    var t2 := N(t1, L(1));
    var t3 := N(t2, L(2));
    var t4 := N(t3, L(3));
    assert Flatten(t1) == [Open, Scalar(9), Scalar(8), Close];
    assert Flatten(t2) == [Open] + Flatten(t1) + [Scalar(1), Close];
    assert Flatten(t3) == [Open] + Flatten(t2) + [Scalar(2), Close];
    assert Flatten(t4) == [Open] + Flatten(t3) + [Scalar(3), Close];
    assert Flatten(t) == [Open] + Flatten(t4) + [Scalar(4), Close];
  }

  lemma LeftmostDeep(s: seq<Symbol>)
    requires s == [Open, Open, Open, Open] + [Open, Scalar(9), Scalar(8), Close] + LeftmostRest
    ensures FirstDeepOpen(s) == Some(4) && ExplodeCheck(s[5..]).None?
    ensures s[..4] == [Open, Open, Open, Open] && s[5..] == [Scalar(9), Scalar(8), Close] + s[8..]
    ensures s[8..] == LeftmostRest
  {
    LeadingOpens(s, 4);
    FirstDeepOpenAt(s, 4);
  }

  /** A number nested deeper than four explodes its first deep pair. */
  lemma ExplosionStep(t: Tree, k: nat)
    requires TreeDepth(t) > 4 && FirstDeepOpen(Flatten(t)) == Some(k)
    requires ExplodeCheck(Flatten(t)[k + 1..]).None?
    ensures ReduceOnceSpec(t) == Ok(ExplodeAt(Flatten(t)[..k], Flatten(t)[k + 1..]))
  {
  }

  lemma ExplodeLeftmostPieces(pre: seq<Symbol>, rest: seq<Symbol>)
    requires pre == [Open, Open, Open, Open]
    requires rest == LeftmostRest
    ensures ExplodeAt(pre, [Scalar(9), Scalar(8), Close] + rest) == Flatten(N(N(N(N(L(0), L(9)), L(2)), L(3)), L(4)))
  {
    var pair := [Scalar(9), Scalar(8), Close] + rest;
    assert AddToLastScalar(pre, 9) == pre by {
      assert LastScalarIndex(pre) == None;
    }
    var carried := [Scalar(9), Close, Scalar(2), Close, Scalar(3), Close, Scalar(4), Close];
    assert AddToFirstScalar(pair[3..], 8) == carried by {
      assert pair[3..] == rest;
      assert FirstScalarIndex(rest) == Some(0);
    }
    assert ExplodeAt(pre, pair) == pre + [Scalar(0)] + carried;
    LeftmostResult(pre + [Scalar(0)] + carried);
  }

  lemma LeftmostResult(s: seq<Symbol>)
    requires s == [Open, Open, Open, Open, Scalar(0), Scalar(9), Close, Scalar(2), Close, Scalar(3), Close, Scalar(4), Close]
    ensures Flatten(N(N(N(N(L(0), L(9)), L(2)), L(3)), L(4))) == s
  {
    var t1 := N(L(0), L(9));
    var t2 := N(t1, L(2));
    var t3 := N(t2, L(3));
    assert Flatten(t1) == [Open, Scalar(0), Scalar(9), Close];
    assert Flatten(t2) == [Open] + Flatten(t1) + [Scalar(2), Close];
    assert Flatten(t3) == [Open] + Flatten(t2) + [Scalar(3), Close];
    assert Flatten(N(t3, L(4))) == [Open] + Flatten(t3) + [Scalar(4), Close];
  }

  /** A run of opens nests one level per open. */
  lemma {:induction false} LeadingOpens(s: seq<Symbol>, n: nat)
    requires n <= |s| && forall i :: 0 <= i < n ==> s[i] == Open
    ensures forall q :: 0 <= q <= n ==> Net(s[..q]) == q
  {
    if n > 0 {
      LeadingOpens(s, n - 1);
      NetSnoc(s, n - 1);
    }
  }

  /** `nets` lists the nesting before each symbol of `s`, and after the last. */
  predicate RunningNets(s: seq<Symbol>, nets: seq<int>)
  {
    |nets| == |s| + 1 && nets[0] == 0 &&
    forall q :: 0 <= q < |s| ==> nets[q + 1] == nets[q] + Delta(s[q])
  }

  lemma {:induction false} NetsOfPrefixes(s: seq<Symbol>, nets: seq<int>, n: nat)
    requires RunningNets(s, nets) && n <= |s|
    ensures forall q :: 0 <= q <= n ==> Net(s[..q]) == nets[q]
  {
    if n > 0 {
      NetsOfPrefixes(s, nets, n - 1);
      NetSnoc(s, n - 1);
    }
  }

  lemma LastScalarAt(s: seq<Symbol>, j: nat, c: nat)
    requires j < |s| && s[j].Scalar? && forall k :: j < k < |s| ==> !s[k].Scalar?
    ensures AddToLastScalar(s, c) == s[j := Scalar(s[j].value + c)]
  {
  }

  lemma FirstScalarAt(s: seq<Symbol>, j: nat, c: nat)
    requires j < |s| && s[j].Scalar? && forall k :: 0 <= k < j ==> !s[k].Scalar?
    ensures AddToFirstScalar(s, c) == s[j := Scalar(s[j].value + c)]
  {
    FirstScalarUnique(s, j);
  }

  lemma NoScalar(s: seq<Symbol>, c: nat)
    requires forall k :: 0 <= k < |s| ==> !s[k].Scalar?
    ensures AddToFirstScalar(s, c) == s && AddToLastScalar(s, c) == s
  {
  }

  /** The first open at which the running nesting `nets` is four is the
      first deep open. */
  lemma FirstDeepByNets(s: seq<Symbol>, nets: seq<int>, k: nat)
    requires RunningNets(s, nets) && k < |s| && s[k] == Open && nets[k] == 4
    requires forall q :: 0 <= q < k && s[q] == Open ==> nets[q] != 4
    ensures FirstDeepOpen(s) == Some(k) && PeakNet(s) > 4
  {
    NetsOfPrefixes(s, nets, k);
    FirstDeepOpenAt(s, k);
  }

  /** A running nesting that never passes four leaves no deep open. */
  lemma ShallowByNets(s: seq<Symbol>, nets: seq<int>)
    requires RunningNets(s, nets) && forall q :: 0 <= q <= |s| ==> nets[q] <= 4
    ensures PeakNet(s) <= 4
  {
    NetsOfPrefixes(s, nets, |s|);
    forall q | 0 <= q < |s|
      ensures !DeepOpenAt(s, q)
    {
      NetSnoc(s, q);
    }
    ShallowWithoutDeepOpen(s);
  }

  /** A number that is `pre`, a pair [a,b] and `post`, where that pair is the
      first nested inside four others, explodes it. */
  lemma ExplodesTo(t: Tree, pre: seq<Symbol>, a: nat, b: nat, post: seq<Symbol>, u: Tree)
    requires Flatten(t) == pre + [Open] + [Scalar(a), Scalar(b), Close] + post
    requires FirstDeepOpen(Flatten(t)) == Some(|pre|) && PeakNet(Flatten(t)) > 4
    requires AddToLastScalar(pre, a) + [Scalar(0)] + AddToFirstScalar(post, b) == Flatten(u)
    ensures ReduceOnceSpec(t) == Ok(Flatten(u))
  {
    PairCut(pre, a, b, post);
    TreePeak(t);
    ExplosionStep(t, |pre|);
  }

  lemma PairCut(pre: seq<Symbol>, a: nat, b: nat, post: seq<Symbol>)
    ensures (pre + [Open] + [Scalar(a), Scalar(b), Close] + post)[..|pre|] == pre
    ensures (pre + [Open] + [Scalar(a), Scalar(b), Close] + post)[|pre| + 1..] == [Scalar(a), Scalar(b), Close] + post
    ensures ExplodeCheck([Scalar(a), Scalar(b), Close] + post).None?
    ensures ExplodeAt(pre, [Scalar(a), Scalar(b), Close] + post)
         == AddToLastScalar(pre, a) + [Scalar(0)] + AddToFirstScalar(post, b)
  {
    var pair := [Scalar(a), Scalar(b), Close];
    assert pre + [Open] + pair + post == pre + ([Open] + pair + post);
    assert (pair + post)[3..] == post;
  }

  /** A number that is `pre`, a scalar n of ten or more and `post`, nested
      no deeper than four and with no scalar of ten or more in `pre`, splits
      n. */
  lemma SplitsTo(t: Tree, pre: seq<Symbol>, n: nat, post: seq<Symbol>, u: Tree)
    requires Flatten(t) == pre + [Scalar(n)] + post && PeakNet(Flatten(t)) <= 4
    requires n >= 10 && forall q :: 0 <= q < |pre| ==> !Big(pre[q])
    requires pre + Halves(n) + post == Flatten(u)
    ensures ReduceOnceSpec(t) == Ok(Flatten(u))
  {
    var s := Flatten(t);
    var k := |pre|;
    assert s[..k] == pre && s[k + 1..] == post;
    TreePeak(t);
    FirstBigAt(s, k);
  }

  /** [7,[6,[5,[4,[3,2]]]]] becomes [7,[6,[5,[7,0]]]].
      The exploding pair's right half has no scalar after it and is dropped. */
  lemma ExplodeRightmost(t: Tree, u: Tree)
    requires t == N(L(7), N(L(6), N(L(5), N(L(4), N(L(3), L(2))))))
    requires u == N(L(7), N(L(6), N(L(5), N(L(7), L(0)))))
    ensures ReduceOnceSpec(t) == Ok(Flatten(u))
  {
    var s := [Open, Scalar(7), Open, Scalar(6), Open, Scalar(5), Open, Scalar(4), Open,
              Scalar(3), Scalar(2), Close, Close, Close, Close, Close];
    var pre := [Open, Scalar(7), Open, Scalar(6), Open, Scalar(5), Open, Scalar(4)];
    var post := [Close, Close, Close, Close];
    var e := [Open, Scalar(7), Open, Scalar(6), Open, Scalar(5), Open, Scalar(7), Scalar(0),
              Close, Close, Close, Close];
    var nets := [0, 1, 1, 2, 2, 3, 3, 4, 4, 5, 5, 5, 4, 3, 2, 1, 0];
    ShapeEdgeBefore(t, s);
    ShapeEdgeAfter(u, e);
    ExplodeRightmostCut(s, pre, post);
    ExplodeRightmostNets(s, nets);
    ExplodeRightmostPieces(pre, post, e);
    FirstDeepByNets(s, nets, 8);
    ExplodesTo(t, pre, 3, 2, post, u);
  }

  lemma ExplodeRightmostCut(s: seq<Symbol>, pre: seq<Symbol>, post: seq<Symbol>)
    requires s == [Open, Scalar(7), Open, Scalar(6), Open, Scalar(5), Open, Scalar(4), Open,
                  Scalar(3), Scalar(2), Close, Close, Close, Close, Close]
    requires pre == [Open, Scalar(7), Open, Scalar(6), Open, Scalar(5), Open, Scalar(4)]
    requires post == [Close, Close, Close, Close]
    ensures s == pre + [Open] + [Scalar(3), Scalar(2), Close] + post
  {
  }

  lemma ExplodeRightmostNets(s: seq<Symbol>, nets: seq<int>)
    requires s == [Open, Scalar(7), Open, Scalar(6), Open, Scalar(5), Open, Scalar(4), Open,
                  Scalar(3), Scalar(2), Close, Close, Close, Close, Close]
    requires nets == [0, 1, 1, 2, 2, 3, 3, 4, 4, 5, 5, 5, 4, 3, 2, 1, 0]
    ensures RunningNets(s, nets) && nets[8] == 4
    ensures forall q :: 0 <= q < 8 && s[q] == Open ==> nets[q] != 4
  {
  }

  lemma ExplodeRightmostPieces(pre: seq<Symbol>, post: seq<Symbol>, e: seq<Symbol>)
    requires pre == [Open, Scalar(7), Open, Scalar(6), Open, Scalar(5), Open, Scalar(4)]
    requires post == [Close, Close, Close, Close]
    requires e == [Open, Scalar(7), Open, Scalar(6), Open, Scalar(5), Open, Scalar(7), Scalar(0),
                  Close, Close, Close, Close]
    ensures AddToLastScalar(pre, 3) + [Scalar(0)] + AddToFirstScalar(post, 2) == e
  {
    LastScalarAt(pre, 7, 3);
    NoScalar(post, 2);
  }

  /** [[6,[5,[4,[3,2]]]],1] becomes [[6,[5,[7,0]]],3].
      Both halves of the exploding pair find a neighbour. */
  lemma ExplodeInner(t: Tree, u: Tree)
    requires t == N(N(L(6), N(L(5), N(L(4), N(L(3), L(2))))), L(1))
    requires u == N(N(L(6), N(L(5), N(L(7), L(0)))), L(3))
    ensures ReduceOnceSpec(t) == Ok(Flatten(u))
  {
    var s := [Open, Open, Scalar(6), Open, Scalar(5), Open, Scalar(4), Open, Scalar(3),
              Scalar(2), Close, Close, Close, Close, Scalar(1), Close];
    var pre := [Open, Open, Scalar(6), Open, Scalar(5), Open, Scalar(4)];
    var post := [Close, Close, Close, Scalar(1), Close];
    var e := [Open, Open, Scalar(6), Open, Scalar(5), Open, Scalar(7), Scalar(0), Close,
              Close, Close, Scalar(3), Close];
    var nets := [0, 1, 2, 2, 3, 3, 4, 4, 5, 5, 5, 4, 3, 2, 1, 1, 0];
    ShapeInnerBefore(t, s);
    ShapeInnerAfter(u, e);
    ExplodeInnerCut(s, pre, post);
    ExplodeInnerNets(s, nets);
    ExplodeInnerPieces(pre, post, e);
    FirstDeepByNets(s, nets, 7);
    ExplodesTo(t, pre, 3, 2, post, u);
  }

  lemma ExplodeInnerCut(s: seq<Symbol>, pre: seq<Symbol>, post: seq<Symbol>)
    requires s == [Open, Open, Scalar(6), Open, Scalar(5), Open, Scalar(4), Open, Scalar(3),
                  Scalar(2), Close, Close, Close, Close, Scalar(1), Close]
    requires pre == [Open, Open, Scalar(6), Open, Scalar(5), Open, Scalar(4)]
    requires post == [Close, Close, Close, Scalar(1), Close]
    ensures s == pre + [Open] + [Scalar(3), Scalar(2), Close] + post
  {
  }

  lemma ExplodeInnerNets(s: seq<Symbol>, nets: seq<int>)
    requires s == [Open, Open, Scalar(6), Open, Scalar(5), Open, Scalar(4), Open, Scalar(3),
                  Scalar(2), Close, Close, Close, Close, Scalar(1), Close]
    requires nets == [0, 1, 2, 2, 3, 3, 4, 4, 5, 5, 5, 4, 3, 2, 1, 1, 0]
    ensures RunningNets(s, nets) && nets[7] == 4
    ensures forall q :: 0 <= q < 7 && s[q] == Open ==> nets[q] != 4
  {
  }

  lemma ExplodeInnerPieces(pre: seq<Symbol>, post: seq<Symbol>, e: seq<Symbol>)
    requires pre == [Open, Open, Scalar(6), Open, Scalar(5), Open, Scalar(4)]
    requires post == [Close, Close, Close, Scalar(1), Close]
    requires e == [Open, Open, Scalar(6), Open, Scalar(5), Open, Scalar(7), Scalar(0), Close,
                  Close, Close, Scalar(3), Close]
    ensures AddToLastScalar(pre, 3) + [Scalar(0)] + AddToFirstScalar(post, 2) == e
  {
    LastScalarAt(pre, 6, 3);
    FirstScalarAt(post, 3, 2);
  }

  /** [[3,[2,[1,[7,3]]]],[6,[5,[4,[3,2]]]]] becomes [[3,[2,[8,0]]],[9,[5,[4,[3,2]]]]].
      Of two pairs nested five deep, only the leftmost explodes. */
  lemma ExplodeFirstOfTwo(t: Tree, u: Tree)
    requires t == N(N(L(3), N(L(2), N(L(1), N(L(7), L(3))))), N(L(6), N(L(5), N(L(4), N(L(3), L(2))))))
    requires u == N(N(L(3), N(L(2), N(L(8), L(0)))), N(L(9), N(L(5), N(L(4), N(L(3), L(2))))))
    ensures ReduceOnceSpec(t) == Ok(Flatten(u))
  {
    var s := [Open, Open, Scalar(3), Open, Scalar(2), Open, Scalar(1), Open, Scalar(7),
              Scalar(3), Close, Close, Close, Close, Open, Scalar(6), Open, Scalar(5),
              Open, Scalar(4), Open, Scalar(3), Scalar(2), Close, Close, Close, Close,
              Close];
    var pre := [Open, Open, Scalar(3), Open, Scalar(2), Open, Scalar(1)];
    var post := [Close, Close, Close, Open, Scalar(6), Open, Scalar(5), Open, Scalar(4), Open,
                 Scalar(3), Scalar(2), Close, Close, Close, Close, Close];
    var e := [Open, Open, Scalar(3), Open, Scalar(2), Open, Scalar(8), Scalar(0), Close,
              Close, Close, Open, Scalar(9), Open, Scalar(5), Open, Scalar(4), Open, Scalar(3),
              Scalar(2), Close, Close, Close, Close, Close];
    var nets := [0, 1, 2, 2, 3, 3, 4, 4, 5, 5, 5, 4, 3, 2, 1, 2, 2, 3, 3, 4, 4, 5, 5, 5, 4, 3, 2, 1, 0];
    ShapeTwinBefore(t, s);
    ShapeTwinOnce(u, e);
    ExplodeFirstOfTwoCut(s, pre, post);
    ExplodeFirstOfTwoNets(s, nets);
    ExplodeFirstOfTwoPieces(pre, post, e);
    FirstDeepByNets(s, nets, 7);
    ExplodesTo(t, pre, 7, 3, post, u);
  }

  lemma ExplodeFirstOfTwoCut(s: seq<Symbol>, pre: seq<Symbol>, post: seq<Symbol>)
    requires s == [Open, Open, Scalar(3), Open, Scalar(2), Open, Scalar(1), Open, Scalar(7),
                  Scalar(3), Close, Close, Close, Close, Open, Scalar(6), Open, Scalar(5),
                  Open, Scalar(4), Open, Scalar(3), Scalar(2), Close, Close, Close, Close,
                  Close]
    requires pre == [Open, Open, Scalar(3), Open, Scalar(2), Open, Scalar(1)]
    requires post == [Close, Close, Close, Open, Scalar(6), Open, Scalar(5), Open, Scalar(4), Open,
                     Scalar(3), Scalar(2), Close, Close, Close, Close, Close]
    ensures s == pre + [Open] + [Scalar(7), Scalar(3), Close] + post
  {
  }

  lemma ExplodeFirstOfTwoNets(s: seq<Symbol>, nets: seq<int>)
    requires s == [Open, Open, Scalar(3), Open, Scalar(2), Open, Scalar(1), Open, Scalar(7),
                  Scalar(3), Close, Close, Close, Close, Open, Scalar(6), Open, Scalar(5),
                  Open, Scalar(4), Open, Scalar(3), Scalar(2), Close, Close, Close, Close,
                  Close]
    requires nets == [0, 1, 2, 2, 3, 3, 4, 4, 5, 5, 5, 4, 3, 2, 1, 2, 2, 3, 3, 4, 4, 5, 5, 5, 4, 3, 2, 1, 0]
    ensures RunningNets(s, nets) && nets[7] == 4
    ensures forall q :: 0 <= q < 7 && s[q] == Open ==> nets[q] != 4
  {
  }

  lemma ExplodeFirstOfTwoPieces(pre: seq<Symbol>, post: seq<Symbol>, e: seq<Symbol>)
    requires pre == [Open, Open, Scalar(3), Open, Scalar(2), Open, Scalar(1)]
    requires post == [Close, Close, Close, Open, Scalar(6), Open, Scalar(5), Open, Scalar(4), Open,
                     Scalar(3), Scalar(2), Close, Close, Close, Close, Close]
    requires e == [Open, Open, Scalar(3), Open, Scalar(2), Open, Scalar(8), Scalar(0), Close,
                  Close, Close, Open, Scalar(9), Open, Scalar(5), Open, Scalar(4), Open, Scalar(3),
                  Scalar(2), Close, Close, Close, Close, Close]
    ensures AddToLastScalar(pre, 7) + [Scalar(0)] + AddToFirstScalar(post, 3) == e
  {
    LastScalarAt(pre, 6, 7);
    FirstScalarAt(post, 4, 3);
  }

  /** [[3,[2,[8,0]]],[9,[5,[4,[3,2]]]]] becomes [[3,[2,[8,0]]],[9,[5,[7,0]]]].
      The remaining deep pair explodes next. */
  lemma ExplodeSecondOfTwo(t: Tree, u: Tree)
    requires t == N(N(L(3), N(L(2), N(L(8), L(0)))), N(L(9), N(L(5), N(L(4), N(L(3), L(2))))))
    requires u == N(N(L(3), N(L(2), N(L(8), L(0)))), N(L(9), N(L(5), N(L(7), L(0)))))
    ensures ReduceOnceSpec(t) == Ok(Flatten(u))
  {
    var s := [Open, Open, Scalar(3), Open, Scalar(2), Open, Scalar(8), Scalar(0), Close,
              Close, Close, Open, Scalar(9), Open, Scalar(5), Open, Scalar(4), Open, Scalar(3),
              Scalar(2), Close, Close, Close, Close, Close];
    var pre := [Open, Open, Scalar(3), Open, Scalar(2), Open, Scalar(8), Scalar(0), Close,
                Close, Close, Open, Scalar(9), Open, Scalar(5), Open, Scalar(4)];
    var post := [Close, Close, Close, Close];
    var e := [Open, Open, Scalar(3), Open, Scalar(2), Open, Scalar(8), Scalar(0), Close,
              Close, Close, Open, Scalar(9), Open, Scalar(5), Open, Scalar(7), Scalar(0),
              Close, Close, Close, Close];
    var nets := [0, 1, 2, 2, 3, 3, 4, 4, 4, 3, 2, 1, 2, 2, 3, 3, 4, 4, 5, 5, 5, 4, 3, 2, 1, 0];
    ShapeTwinOnce(t, s);
    ShapeTwinTwice(u, e);
    ExplodeSecondOfTwoCut(s, pre, post);
    ExplodeSecondOfTwoNets(s, nets);
    ExplodeSecondOfTwoPieces(pre, post, e);
    FirstDeepByNets(s, nets, 17);
    ExplodesTo(t, pre, 3, 2, post, u);
  }

  lemma ExplodeSecondOfTwoCut(s: seq<Symbol>, pre: seq<Symbol>, post: seq<Symbol>)
    requires s == [Open, Open, Scalar(3), Open, Scalar(2), Open, Scalar(8), Scalar(0), Close,
                  Close, Close, Open, Scalar(9), Open, Scalar(5), Open, Scalar(4), Open, Scalar(3),
                  Scalar(2), Close, Close, Close, Close, Close]
    requires pre == [Open, Open, Scalar(3), Open, Scalar(2), Open, Scalar(8), Scalar(0), Close,
                    Close, Close, Open, Scalar(9), Open, Scalar(5), Open, Scalar(4)]
    requires post == [Close, Close, Close, Close]
    ensures s == pre + [Open] + [Scalar(3), Scalar(2), Close] + post
  {
  }

  lemma ExplodeSecondOfTwoNets(s: seq<Symbol>, nets: seq<int>)
    requires s == [Open, Open, Scalar(3), Open, Scalar(2), Open, Scalar(8), Scalar(0), Close,
                  Close, Close, Open, Scalar(9), Open, Scalar(5), Open, Scalar(4), Open, Scalar(3),
                  Scalar(2), Close, Close, Close, Close, Close]
    requires nets == [0, 1, 2, 2, 3, 3, 4, 4, 4, 3, 2, 1, 2, 2, 3, 3, 4, 4, 5, 5, 5, 4, 3, 2, 1, 0]
    ensures RunningNets(s, nets) && nets[17] == 4
    ensures forall q :: 0 <= q < 17 && s[q] == Open ==> nets[q] != 4
  {
  }

  lemma ExplodeSecondOfTwoPieces(pre: seq<Symbol>, post: seq<Symbol>, e: seq<Symbol>)
    requires pre == [Open, Open, Scalar(3), Open, Scalar(2), Open, Scalar(8), Scalar(0), Close,
                    Close, Close, Open, Scalar(9), Open, Scalar(5), Open, Scalar(4)]
    requires post == [Close, Close, Close, Close]
    requires e == [Open, Open, Scalar(3), Open, Scalar(2), Open, Scalar(8), Scalar(0), Close,
                  Close, Close, Open, Scalar(9), Open, Scalar(5), Open, Scalar(7), Scalar(0),
                  Close, Close, Close, Close]
    ensures AddToLastScalar(pre, 3) + [Scalar(0)] + AddToFirstScalar(post, 2) == e
  {
    LastScalarAt(pre, 16, 3);
    NoScalar(post, 2);
  }

  /** [[[[[4,3],4],4],[7,[[8,4],9]]],[1,1]] becomes [[[[0,7],4],[7,[[8,4],9]]],[1,1]].
      First of five steps reducing the sum of [[[[4,3],4],4],[7,[[8,4],9]]]
      and [1,1]: an explosion with nothing to its left. */
  lemma ReduceAfterAddition(t: Tree, u: Tree)
    requires t == N(N(N(N(N(L(4), L(3)), L(4)), L(4)), N(L(7), N(N(L(8), L(4)), L(9)))), N(L(1), L(1)))
    requires u == N(N(N(N(L(0), L(7)), L(4)), N(L(7), N(N(L(8), L(4)), L(9)))), N(L(1), L(1)))
    ensures ReduceOnceSpec(t) == Ok(Flatten(u))
  {
    var s := [Open, Open, Open, Open, Open, Scalar(4), Scalar(3), Close, Scalar(4), Close,
              Scalar(4), Close, Open, Scalar(7), Open, Open, Scalar(8), Scalar(4), Close,
              Scalar(9), Close, Close, Close, Open, Scalar(1), Scalar(1), Close, Close];
    var pre := [Open, Open, Open, Open];
    var post := [Scalar(4), Close, Scalar(4), Close, Open, Scalar(7), Open, Open, Scalar(8),
                 Scalar(4), Close, Scalar(9), Close, Close, Close, Open, Scalar(1), Scalar(1),
                 Close, Close];
    var e := [Open, Open, Open, Open, Scalar(0), Scalar(7), Close, Scalar(4), Close, Open,
              Scalar(7), Open, Open, Scalar(8), Scalar(4), Close, Scalar(9), Close, Close,
              Close, Open, Scalar(1), Scalar(1), Close, Close];
    var nets := [0, 1, 2, 3, 4, 5, 5, 5, 4, 4, 3, 3, 2, 3, 3, 4, 5, 5, 5, 4, 4, 3, 2, 1, 2, 2, 2, 1, 0];
    ShapeSum0(t, s);
    ShapeSum1(u, e);
    ReduceAfterAdditionCut(s, pre, post);
    ReduceAfterAdditionNets(s, nets);
    ReduceAfterAdditionPieces(pre, post, e);
    FirstDeepByNets(s, nets, 4);
    ExplodesTo(t, pre, 4, 3, post, u);
  }

  lemma ReduceAfterAdditionCut(s: seq<Symbol>, pre: seq<Symbol>, post: seq<Symbol>)
    requires s == [Open, Open, Open, Open, Open, Scalar(4), Scalar(3), Close, Scalar(4), Close,
                  Scalar(4), Close, Open, Scalar(7), Open, Open, Scalar(8), Scalar(4), Close,
                  Scalar(9), Close, Close, Close, Open, Scalar(1), Scalar(1), Close, Close]
    requires pre == [Open, Open, Open, Open]
    requires post == [Scalar(4), Close, Scalar(4), Close, Open, Scalar(7), Open, Open, Scalar(8),
                     Scalar(4), Close, Scalar(9), Close, Close, Close, Open, Scalar(1), Scalar(1),
                     Close, Close]
    ensures s == pre + [Open] + [Scalar(4), Scalar(3), Close] + post
  {
  }

  lemma ReduceAfterAdditionNets(s: seq<Symbol>, nets: seq<int>)
    requires s == [Open, Open, Open, Open, Open, Scalar(4), Scalar(3), Close, Scalar(4), Close,
                  Scalar(4), Close, Open, Scalar(7), Open, Open, Scalar(8), Scalar(4), Close,
                  Scalar(9), Close, Close, Close, Open, Scalar(1), Scalar(1), Close, Close]
    requires nets == [0, 1, 2, 3, 4, 5, 5, 5, 4, 4, 3, 3, 2, 3, 3, 4, 5, 5, 5, 4, 4, 3, 2, 1, 2, 2, 2, 1, 0]
    ensures RunningNets(s, nets) && nets[4] == 4
    ensures forall q :: 0 <= q < 4 && s[q] == Open ==> nets[q] != 4
  {
  }

  lemma ReduceAfterAdditionPieces(pre: seq<Symbol>, post: seq<Symbol>, e: seq<Symbol>)
    requires pre == [Open, Open, Open, Open]
    requires post == [Scalar(4), Close, Scalar(4), Close, Open, Scalar(7), Open, Open, Scalar(8),
                     Scalar(4), Close, Scalar(9), Close, Close, Close, Open, Scalar(1), Scalar(1),
                     Close, Close]
    requires e == [Open, Open, Open, Open, Scalar(0), Scalar(7), Close, Scalar(4), Close, Open,
                  Scalar(7), Open, Open, Scalar(8), Scalar(4), Close, Scalar(9), Close, Close,
                  Close, Open, Scalar(1), Scalar(1), Close, Close]
    ensures AddToLastScalar(pre, 4) + [Scalar(0)] + AddToFirstScalar(post, 3) == e
  {
    NoScalar(pre, 4);
    FirstScalarAt(post, 0, 3);
  }

  /** [[[[0,7],4],[7,[[8,4],9]]],[1,1]] becomes [[[[0,7],4],[15,[0,13]]],[1,1]].
      Second step: an explosion that feeds both neighbours. */
  lemma ReduceSecond(t: Tree, u: Tree)
    requires t == N(N(N(N(L(0), L(7)), L(4)), N(L(7), N(N(L(8), L(4)), L(9)))), N(L(1), L(1)))
    requires u == N(N(N(N(L(0), L(7)), L(4)), N(L(15), N(L(0), L(13)))), N(L(1), L(1)))
    ensures ReduceOnceSpec(t) == Ok(Flatten(u))
  {
    var s := [Open, Open, Open, Open, Scalar(0), Scalar(7), Close, Scalar(4), Close, Open,
              Scalar(7), Open, Open, Scalar(8), Scalar(4), Close, Scalar(9), Close, Close,
              Close, Open, Scalar(1), Scalar(1), Close, Close];
    var pre := [Open, Open, Open, Open, Scalar(0), Scalar(7), Close, Scalar(4), Close, Open,
                Scalar(7), Open];
    var post := [Scalar(9), Close, Close, Close, Open, Scalar(1), Scalar(1), Close, Close];
    var e := [Open, Open, Open, Open, Scalar(0), Scalar(7), Close, Scalar(4), Close, Open,
              Scalar(15), Open, Scalar(0), Scalar(13), Close, Close, Close, Open, Scalar(1),
              Scalar(1), Close, Close];
    var nets := [0, 1, 2, 3, 4, 4, 4, 3, 3, 2, 3, 3, 4, 5, 5, 5, 4, 4, 3, 2, 1, 2, 2, 2, 1, 0];
    ShapeSum1(t, s);
    ShapeSum2(u, e);
    ReduceSecondCut(s, pre, post);
    ReduceSecondNets(s, nets);
    ReduceSecondPieces(pre, post, e);
    FirstDeepByNets(s, nets, 12);
    ExplodesTo(t, pre, 8, 4, post, u);
  }

  lemma ReduceSecondCut(s: seq<Symbol>, pre: seq<Symbol>, post: seq<Symbol>)
    requires s == [Open, Open, Open, Open, Scalar(0), Scalar(7), Close, Scalar(4), Close, Open,
                  Scalar(7), Open, Open, Scalar(8), Scalar(4), Close, Scalar(9), Close, Close,
                  Close, Open, Scalar(1), Scalar(1), Close, Close]
    requires pre == [Open, Open, Open, Open, Scalar(0), Scalar(7), Close, Scalar(4), Close, Open,
                    Scalar(7), Open]
    requires post == [Scalar(9), Close, Close, Close, Open, Scalar(1), Scalar(1), Close, Close]
    ensures s == pre + [Open] + [Scalar(8), Scalar(4), Close] + post
  {
  }

  lemma ReduceSecondNets(s: seq<Symbol>, nets: seq<int>)
    requires s == [Open, Open, Open, Open, Scalar(0), Scalar(7), Close, Scalar(4), Close, Open,
                  Scalar(7), Open, Open, Scalar(8), Scalar(4), Close, Scalar(9), Close, Close,
                  Close, Open, Scalar(1), Scalar(1), Close, Close]
    requires nets == [0, 1, 2, 3, 4, 4, 4, 3, 3, 2, 3, 3, 4, 5, 5, 5, 4, 4, 3, 2, 1, 2, 2, 2, 1, 0]
    ensures RunningNets(s, nets) && nets[12] == 4
    ensures forall q :: 0 <= q < 12 && s[q] == Open ==> nets[q] != 4
  {
  }

  lemma ReduceSecondPieces(pre: seq<Symbol>, post: seq<Symbol>, e: seq<Symbol>)
    requires pre == [Open, Open, Open, Open, Scalar(0), Scalar(7), Close, Scalar(4), Close, Open,
                    Scalar(7), Open]
    requires post == [Scalar(9), Close, Close, Close, Open, Scalar(1), Scalar(1), Close, Close]
    requires e == [Open, Open, Open, Open, Scalar(0), Scalar(7), Close, Scalar(4), Close, Open,
                  Scalar(15), Open, Scalar(0), Scalar(13), Close, Close, Close, Open, Scalar(1),
                  Scalar(1), Close, Close]
    ensures AddToLastScalar(pre, 8) + [Scalar(0)] + AddToFirstScalar(post, 4) == e
  {
    LastScalarAt(pre, 10, 8);
    FirstScalarAt(post, 0, 4);
  }

  /** [[[[0,7],4],[15,[0,13]]],[1,1]] becomes [[[[0,7],4],[[7,8],[0,13]]],[1,1]].
      Third step: nothing is nested five deep, so 15 splits. */
  lemma ReduceThird(t: Tree, u: Tree)
    requires t == N(N(N(N(L(0), L(7)), L(4)), N(L(15), N(L(0), L(13)))), N(L(1), L(1)))
    requires u == N(N(N(N(L(0), L(7)), L(4)), N(N(L(7), L(8)), N(L(0), L(13)))), N(L(1), L(1)))
    ensures ReduceOnceSpec(t) == Ok(Flatten(u))
  {
    var s := [Open, Open, Open, Open, Scalar(0), Scalar(7), Close, Scalar(4), Close, Open,
              Scalar(15), Open, Scalar(0), Scalar(13), Close, Close, Close, Open, Scalar(1),
              Scalar(1), Close, Close];
    var pre := [Open, Open, Open, Open, Scalar(0), Scalar(7), Close, Scalar(4), Close, Open];
    var post := [Open, Scalar(0), Scalar(13), Close, Close, Close, Open, Scalar(1), Scalar(1),
                 Close, Close];
    var e := [Open, Open, Open, Open, Scalar(0), Scalar(7), Close, Scalar(4), Close, Open,
              Open, Scalar(7), Scalar(8), Close, Open, Scalar(0), Scalar(13), Close, Close,
              Close, Open, Scalar(1), Scalar(1), Close, Close];
    var nets := [0, 1, 2, 3, 4, 4, 4, 3, 3, 2, 3, 3, 4, 4, 4, 3, 2, 1, 2, 2, 2, 1, 0];
    ShapeSum2(t, s);
    ShapeSum3(u, e);
    ReduceThirdCut(s, pre, post);
    ReduceThirdNets(s, nets);
    ReduceThirdPieces(pre, post, e);
    ShallowByNets(s, nets);
    SplitsTo(t, pre, 15, post, u);
  }

  lemma ReduceThirdCut(s: seq<Symbol>, pre: seq<Symbol>, post: seq<Symbol>)
    requires s == [Open, Open, Open, Open, Scalar(0), Scalar(7), Close, Scalar(4), Close, Open,
                  Scalar(15), Open, Scalar(0), Scalar(13), Close, Close, Close, Open, Scalar(1),
                  Scalar(1), Close, Close]
    requires pre == [Open, Open, Open, Open, Scalar(0), Scalar(7), Close, Scalar(4), Close, Open]
    requires post == [Open, Scalar(0), Scalar(13), Close, Close, Close, Open, Scalar(1), Scalar(1),
                     Close, Close]
    ensures s == pre + [Scalar(15)] + post
  {
  }

  lemma ReduceThirdNets(s: seq<Symbol>, nets: seq<int>)
    requires s == [Open, Open, Open, Open, Scalar(0), Scalar(7), Close, Scalar(4), Close, Open,
                  Scalar(15), Open, Scalar(0), Scalar(13), Close, Close, Close, Open, Scalar(1),
                  Scalar(1), Close, Close]
    requires nets == [0, 1, 2, 3, 4, 4, 4, 3, 3, 2, 3, 3, 4, 4, 4, 3, 2, 1, 2, 2, 2, 1, 0]
    ensures RunningNets(s, nets) && forall q :: 0 <= q <= |s| ==> nets[q] <= 4
  {
  }

  lemma ReduceThirdPieces(pre: seq<Symbol>, post: seq<Symbol>, e: seq<Symbol>)
    requires pre == [Open, Open, Open, Open, Scalar(0), Scalar(7), Close, Scalar(4), Close, Open]
    requires post == [Open, Scalar(0), Scalar(13), Close, Close, Close, Open, Scalar(1), Scalar(1),
                     Close, Close]
    requires e == [Open, Open, Open, Open, Scalar(0), Scalar(7), Close, Scalar(4), Close, Open,
                  Open, Scalar(7), Scalar(8), Close, Open, Scalar(0), Scalar(13), Close, Close,
                  Close, Open, Scalar(1), Scalar(1), Close, Close]
    ensures pre + Halves(15) + post == e
  {
  }

  /** [[[[0,7],4],[[7,8],[0,13]]],[1,1]] becomes [[[[0,7],4],[[7,8],[0,[6,7]]]],[1,1]].
      Fourth step: 13 splits, creating a pair nested five deep. */
  lemma ReduceFourth(t: Tree, u: Tree)
    requires t == N(N(N(N(L(0), L(7)), L(4)), N(N(L(7), L(8)), N(L(0), L(13)))), N(L(1), L(1)))
    requires u == N(N(N(N(L(0), L(7)), L(4)), N(N(L(7), L(8)), N(L(0), N(L(6), L(7))))), N(L(1), L(1)))
    ensures ReduceOnceSpec(t) == Ok(Flatten(u))
  {
    var s := [Open, Open, Open, Open, Scalar(0), Scalar(7), Close, Scalar(4), Close, Open,
              Open, Scalar(7), Scalar(8), Close, Open, Scalar(0), Scalar(13), Close, Close,
              Close, Open, Scalar(1), Scalar(1), Close, Close];
    var pre := [Open, Open, Open, Open, Scalar(0), Scalar(7), Close, Scalar(4), Close, Open,
                Open, Scalar(7), Scalar(8), Close, Open, Scalar(0)];
    var post := [Close, Close, Close, Open, Scalar(1), Scalar(1), Close, Close];
    var e := [Open, Open, Open, Open, Scalar(0), Scalar(7), Close, Scalar(4), Close, Open,
              Open, Scalar(7), Scalar(8), Close, Open, Scalar(0), Open, Scalar(6), Scalar(7),
              Close, Close, Close, Close, Open, Scalar(1), Scalar(1), Close, Close];
    var nets := [0, 1, 2, 3, 4, 4, 4, 3, 3, 2, 3, 4, 4, 4, 3, 4, 4, 4, 3, 2, 1, 2, 2, 2, 1, 0];
    ShapeSum3(t, s);
    ShapeSum4(u, e);
    ReduceFourthCut(s, pre, post);
    ReduceFourthNets(s, nets);
    ReduceFourthPieces(pre, post, e);
    ShallowByNets(s, nets);
    SplitsTo(t, pre, 13, post, u);
  }

  lemma ReduceFourthCut(s: seq<Symbol>, pre: seq<Symbol>, post: seq<Symbol>)
    requires s == [Open, Open, Open, Open, Scalar(0), Scalar(7), Close, Scalar(4), Close, Open,
                  Open, Scalar(7), Scalar(8), Close, Open, Scalar(0), Scalar(13), Close, Close,
                  Close, Open, Scalar(1), Scalar(1), Close, Close]
    requires pre == [Open, Open, Open, Open, Scalar(0), Scalar(7), Close, Scalar(4), Close, Open,
                    Open, Scalar(7), Scalar(8), Close, Open, Scalar(0)]
    requires post == [Close, Close, Close, Open, Scalar(1), Scalar(1), Close, Close]
    ensures s == pre + [Scalar(13)] + post
  {
  }

  lemma ReduceFourthNets(s: seq<Symbol>, nets: seq<int>)
    requires s == [Open, Open, Open, Open, Scalar(0), Scalar(7), Close, Scalar(4), Close, Open,
                  Open, Scalar(7), Scalar(8), Close, Open, Scalar(0), Scalar(13), Close, Close,
                  Close, Open, Scalar(1), Scalar(1), Close, Close]
    requires nets == [0, 1, 2, 3, 4, 4, 4, 3, 3, 2, 3, 4, 4, 4, 3, 4, 4, 4, 3, 2, 1, 2, 2, 2, 1, 0]
    ensures RunningNets(s, nets) && forall q :: 0 <= q <= |s| ==> nets[q] <= 4
  {
  }

  lemma ReduceFourthPieces(pre: seq<Symbol>, post: seq<Symbol>, e: seq<Symbol>)
    requires pre == [Open, Open, Open, Open, Scalar(0), Scalar(7), Close, Scalar(4), Close, Open,
                    Open, Scalar(7), Scalar(8), Close, Open, Scalar(0)]
    requires post == [Close, Close, Close, Open, Scalar(1), Scalar(1), Close, Close]
    requires e == [Open, Open, Open, Open, Scalar(0), Scalar(7), Close, Scalar(4), Close, Open,
                  Open, Scalar(7), Scalar(8), Close, Open, Scalar(0), Open, Scalar(6), Scalar(7),
                  Close, Close, Close, Close, Open, Scalar(1), Scalar(1), Close, Close]
    ensures pre + Halves(13) + post == e
  {
  }

  /** [[[[0,7],4],[[7,8],[0,[6,7]]]],[1,1]] becomes [[[[0,7],4],[[7,8],[6,0]]],[8,1]].
      Fifth step: that pair explodes. */
  lemma ReduceFifth(t: Tree, u: Tree)
    requires t == N(N(N(N(L(0), L(7)), L(4)), N(N(L(7), L(8)), N(L(0), N(L(6), L(7))))), N(L(1), L(1)))
    requires u == N(N(N(N(L(0), L(7)), L(4)), N(N(L(7), L(8)), N(L(6), L(0)))), N(L(8), L(1)))
    ensures ReduceOnceSpec(t) == Ok(Flatten(u))
  {
    var s := [Open, Open, Open, Open, Scalar(0), Scalar(7), Close, Scalar(4), Close, Open,
              Open, Scalar(7), Scalar(8), Close, Open, Scalar(0), Open, Scalar(6), Scalar(7),
              Close, Close, Close, Close, Open, Scalar(1), Scalar(1), Close, Close];
    var pre := [Open, Open, Open, Open, Scalar(0), Scalar(7), Close, Scalar(4), Close, Open,
                Open, Scalar(7), Scalar(8), Close, Open, Scalar(0)];
    var post := [Close, Close, Close, Open, Scalar(1), Scalar(1), Close, Close];
    var e := [Open, Open, Open, Open, Scalar(0), Scalar(7), Close, Scalar(4), Close, Open,
              Open, Scalar(7), Scalar(8), Close, Open, Scalar(6), Scalar(0), Close, Close,
              Close, Open, Scalar(8), Scalar(1), Close, Close];
    var nets := [0, 1, 2, 3, 4, 4, 4, 3, 3, 2, 3, 4, 4, 4, 3, 4, 4, 5, 5, 5, 4, 3, 2, 1, 2, 2, 2, 1, 0];
    ShapeSum4(t, s);
    ShapeSum5(u, e);
    ReduceFifthCut(s, pre, post);
    ReduceFifthNets(s, nets);
    ReduceFifthPieces(pre, post, e);
    FirstDeepByNets(s, nets, 16);
    ExplodesTo(t, pre, 6, 7, post, u);
  }

  lemma ReduceFifthCut(s: seq<Symbol>, pre: seq<Symbol>, post: seq<Symbol>)
    requires s == [Open, Open, Open, Open, Scalar(0), Scalar(7), Close, Scalar(4), Close, Open,
                  Open, Scalar(7), Scalar(8), Close, Open, Scalar(0), Open, Scalar(6), Scalar(7),
                  Close, Close, Close, Close, Open, Scalar(1), Scalar(1), Close, Close]
    requires pre == [Open, Open, Open, Open, Scalar(0), Scalar(7), Close, Scalar(4), Close, Open,
                    Open, Scalar(7), Scalar(8), Close, Open, Scalar(0)]
    requires post == [Close, Close, Close, Open, Scalar(1), Scalar(1), Close, Close]
    ensures s == pre + [Open] + [Scalar(6), Scalar(7), Close] + post
  {
  }

  lemma ReduceFifthNets(s: seq<Symbol>, nets: seq<int>)
    requires s == [Open, Open, Open, Open, Scalar(0), Scalar(7), Close, Scalar(4), Close, Open,
                  Open, Scalar(7), Scalar(8), Close, Open, Scalar(0), Open, Scalar(6), Scalar(7),
                  Close, Close, Close, Close, Open, Scalar(1), Scalar(1), Close, Close]
    requires nets == [0, 1, 2, 3, 4, 4, 4, 3, 3, 2, 3, 4, 4, 4, 3, 4, 4, 5, 5, 5, 4, 3, 2, 1, 2, 2, 2, 1, 0]
    ensures RunningNets(s, nets) && nets[16] == 4
    ensures forall q :: 0 <= q < 16 && s[q] == Open ==> nets[q] != 4
  {
  }

  lemma ReduceFifthPieces(pre: seq<Symbol>, post: seq<Symbol>, e: seq<Symbol>)
    requires pre == [Open, Open, Open, Open, Scalar(0), Scalar(7), Close, Scalar(4), Close, Open,
                    Open, Scalar(7), Scalar(8), Close, Open, Scalar(0)]
    requires post == [Close, Close, Close, Open, Scalar(1), Scalar(1), Close, Close]
    requires e == [Open, Open, Open, Open, Scalar(0), Scalar(7), Close, Scalar(4), Close, Open,
                  Open, Scalar(7), Scalar(8), Close, Open, Scalar(6), Scalar(0), Close, Close,
                  Close, Open, Scalar(8), Scalar(1), Close, Close]
    ensures AddToLastScalar(pre, 6) + [Scalar(0)] + AddToFirstScalar(post, 7) == e
  {
    LastScalarAt(pre, 15, 6);
    FirstScalarAt(post, 4, 7);
  }


  lemma ShapeEdgeBefore(t: Tree, s: seq<Symbol>)
    requires t == N(L(7), N(L(6), N(L(5), N(L(4), N(L(3), L(2))))))
    requires s == [Open, Scalar(7), Open, Scalar(6), Open, Scalar(5), Open, Scalar(4), Open,
                  Scalar(3), Scalar(2), Close, Close, Close, Close, Close]
    ensures Flatten(t) == s
  {
  }

  lemma ShapeEdgeAfter(t: Tree, s: seq<Symbol>)
    requires t == N(L(7), N(L(6), N(L(5), N(L(7), L(0)))))
    requires s == [Open, Scalar(7), Open, Scalar(6), Open, Scalar(5), Open, Scalar(7), Scalar(0),
                  Close, Close, Close, Close]
    ensures Flatten(t) == s
  {
  }

  lemma ShapeInnerBefore(t: Tree, s: seq<Symbol>)
    requires t == N(N(L(6), N(L(5), N(L(4), N(L(3), L(2))))), L(1))
    requires s == [Open, Open, Scalar(6), Open, Scalar(5), Open, Scalar(4), Open, Scalar(3),
                  Scalar(2), Close, Close, Close, Close, Scalar(1), Close]
    ensures Flatten(t) == s
  {
  }

  lemma ShapeInnerAfter(t: Tree, s: seq<Symbol>)
    requires t == N(N(L(6), N(L(5), N(L(7), L(0)))), L(3))
    requires s == [Open, Open, Scalar(6), Open, Scalar(5), Open, Scalar(7), Scalar(0), Close,
                  Close, Close, Scalar(3), Close]
    ensures Flatten(t) == s
  {
  }

  lemma ShapeTwinBefore(t: Tree, s: seq<Symbol>)
    requires t == N(N(L(3), N(L(2), N(L(1), N(L(7), L(3))))), N(L(6), N(L(5), N(L(4), N(L(3), L(2))))))
    requires s == [Open, Open, Scalar(3), Open, Scalar(2), Open, Scalar(1), Open, Scalar(7),
                  Scalar(3), Close, Close, Close, Close, Open, Scalar(6), Open, Scalar(5),
                  Open, Scalar(4), Open, Scalar(3), Scalar(2), Close, Close, Close, Close,
                  Close]
    ensures Flatten(t) == s
  {
  }

  lemma ShapeTwinOnce(t: Tree, s: seq<Symbol>)
    requires t == N(N(L(3), N(L(2), N(L(8), L(0)))), N(L(9), N(L(5), N(L(4), N(L(3), L(2))))))
    requires s == [Open, Open, Scalar(3), Open, Scalar(2), Open, Scalar(8), Scalar(0), Close,
                  Close, Close, Open, Scalar(9), Open, Scalar(5), Open, Scalar(4), Open, Scalar(3),
                  Scalar(2), Close, Close, Close, Close, Close]
    ensures Flatten(t) == s
  {
  }

  lemma ShapeTwinTwice(t: Tree, s: seq<Symbol>)
    requires t == N(N(L(3), N(L(2), N(L(8), L(0)))), N(L(9), N(L(5), N(L(7), L(0)))))
    requires s == [Open, Open, Scalar(3), Open, Scalar(2), Open, Scalar(8), Scalar(0), Close,
                  Close, Close, Open, Scalar(9), Open, Scalar(5), Open, Scalar(7), Scalar(0),
                  Close, Close, Close, Close]
    ensures Flatten(t) == s
  {
  }

  lemma ShapeSum0(t: Tree, s: seq<Symbol>)
    requires t == N(N(N(N(N(L(4), L(3)), L(4)), L(4)), N(L(7), N(N(L(8), L(4)), L(9)))), N(L(1), L(1)))
    requires s == [Open, Open, Open, Open, Open, Scalar(4), Scalar(3), Close, Scalar(4), Close,
                  Scalar(4), Close, Open, Scalar(7), Open, Open, Scalar(8), Scalar(4), Close,
                  Scalar(9), Close, Close, Close, Open, Scalar(1), Scalar(1), Close, Close]
    ensures Flatten(t) == s
  {
  }

  lemma ShapeSum1(t: Tree, s: seq<Symbol>)
    requires t == N(N(N(N(L(0), L(7)), L(4)), N(L(7), N(N(L(8), L(4)), L(9)))), N(L(1), L(1)))
    requires s == [Open, Open, Open, Open, Scalar(0), Scalar(7), Close, Scalar(4), Close, Open,
                  Scalar(7), Open, Open, Scalar(8), Scalar(4), Close, Scalar(9), Close, Close,
                  Close, Open, Scalar(1), Scalar(1), Close, Close]
    ensures Flatten(t) == s
  {
  }

  lemma ShapeSum2(t: Tree, s: seq<Symbol>)
    requires t == N(N(N(N(L(0), L(7)), L(4)), N(L(15), N(L(0), L(13)))), N(L(1), L(1)))
    requires s == [Open, Open, Open, Open, Scalar(0), Scalar(7), Close, Scalar(4), Close, Open,
                  Scalar(15), Open, Scalar(0), Scalar(13), Close, Close, Close, Open, Scalar(1),
                  Scalar(1), Close, Close]
    ensures Flatten(t) == s
  {
  }

  lemma ShapeSum3(t: Tree, s: seq<Symbol>)
    requires t == N(N(N(N(L(0), L(7)), L(4)), N(N(L(7), L(8)), N(L(0), L(13)))), N(L(1), L(1)))
    requires s == [Open, Open, Open, Open, Scalar(0), Scalar(7), Close, Scalar(4), Close, Open,
                  Open, Scalar(7), Scalar(8), Close, Open, Scalar(0), Scalar(13), Close, Close,
                  Close, Open, Scalar(1), Scalar(1), Close, Close]
    ensures Flatten(t) == s
  {
  }

  lemma ShapeSum4(t: Tree, s: seq<Symbol>)
    requires t == N(N(N(N(L(0), L(7)), L(4)), N(N(L(7), L(8)), N(L(0), N(L(6), L(7))))), N(L(1), L(1)))
    requires s == [Open, Open, Open, Open, Scalar(0), Scalar(7), Close, Scalar(4), Close, Open,
                  Open, Scalar(7), Scalar(8), Close, Open, Scalar(0), Open, Scalar(6), Scalar(7),
                  Close, Close, Close, Close, Open, Scalar(1), Scalar(1), Close, Close]
    ensures Flatten(t) == s
  {
  }

  lemma ShapeSum5(t: Tree, s: seq<Symbol>)
    requires t == N(N(N(N(L(0), L(7)), L(4)), N(N(L(7), L(8)), N(L(6), L(0)))), N(L(8), L(1)))
    requires s == [Open, Open, Open, Open, Scalar(0), Scalar(7), Close, Scalar(4), Close, Open,
                  Open, Scalar(7), Scalar(8), Close, Open, Scalar(6), Scalar(0), Close, Close,
                  Close, Open, Scalar(8), Scalar(1), Close, Close]
    ensures Flatten(t) == s
  {
  }
}
