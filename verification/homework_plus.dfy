/** The second homework evaluator (2020/src/day18/part2.rs): + binds more
    tightly than *, by keeping a stack of partial results. */
module HomeworkPlus {
  import opened Outcomes
  import opened Homework

  /** A value and the tokens left on the stack after it. */
  datatype Evaluated = Evaluated(value: nat, rest: seq<Token>)

  /** Pushes a value: a pending sum takes it, anything else stays below it. */
  function PushValue(parts: seq<Partial>, v: nat): (r: seq<Partial>)
    ensures parts != [] && parts[|parts| - 1].PlusBy? ==>
      r == parts[..|parts| - 1] + [Done(parts[|parts| - 1].u + v)]
    ensures !(parts != [] && parts[|parts| - 1].PlusBy?) ==> r == parts + [Done(v)]
  {
    if parts != [] && parts[|parts| - 1].PlusBy? then
      parts[..|parts| - 1] + [Done(parts[|parts| - 1].u + v)]
    else
      parts + [Done(v)]
  }

  method PushValueOnto(parts: seq<Partial>, v: nat) returns (r: seq<Partial>)
    ensures r == PushValue(parts, v)
  {
    r := parts;
    var last: Option<Partial> := None;
    if r != [] {
      last := Some(r[|r| - 1]);
      r := r[..|r| - 1];
    }
    if last.Some? && last.value.PlusBy? {
      r := r + [Done(last.value.u + v)];
    } else {
      if last.Some? {
        r := r + [last.value];
      }
      r := r + [Done(v)];
    }
  }

  /** The product of the parts; a sum still waiting for its right side is
      bad syntax. */
  function Product(parts: seq<Partial>): (r: Result<nat, EvalError>)
    ensures parts == [] ==> r == Ok(1)
    ensures r.Err? ==> r == Err(BadSyntax)
  {
    if parts == [] then Ok(1)
    else if parts[0].PlusBy? then Err(BadSyntax)
    else
      match Product(parts[1..])
      case Err(e) => Err(e)
      case Ok(p) => Ok(parts[0].u * p)
  }

  lemma {:induction false} ProductConcat(a: seq<Partial>, b: seq<Partial>)
    requires Product(a).Ok? && Product(b).Ok?
    ensures Product(a + b) == Ok(Product(a).value * Product(b).value)
  {
    if a != [] {
      assert (a + b)[1..] == a[1..] + b;
      ProductConcat(a[1..], b);
      var x, y, z := a[0].u, Product(a[1..]).value, Product(b).value;
      assert Product(a + b) == Ok(x * (y * z));
      assert x * (y * z) == x * y * z;
    } else {
      assert a + b == b;
    }
  }

  /** Evaluating the tokens popped from `stack` with the partial results
      `parts`, up to a closing parenthesis or the bottom of the stack. */
  function PlusFirst(stack: seq<Token>, parts: seq<Partial>): (r: Result<Evaluated, EvalError>)
    ensures r.Ok? ==> |r.value.rest| <= |stack|
    decreases |stack|
  {
    if stack == [] then Finish(parts, [])
    else
      var rest := stack[..|stack| - 1];
      match stack[|stack| - 1]
      case Plus =>
        if parts != [] && parts[|parts| - 1].Done? then
          PlusFirst(rest, parts[..|parts| - 1] + [PlusBy(parts[|parts| - 1].u)])
        else Err(UnexpectedPlus)
      case Times =>
        if parts != [] && parts[|parts| - 1].Done? then
          PlusFirst(rest, parts[..|parts| - 1] + [TimesBy(parts[|parts| - 1].u)])
        else Err(UnexpectedTimes)
      case Open =>
        (match PlusFirst(rest, [])
         case Err(e) => Err(e)
         case Ok(inner) => PlusFirst(inner.rest, PushValue(parts, inner.value)))
      case Close => Finish(parts, rest)
      case Value(v) => PlusFirst(rest, PushValue(parts, v))
  }

  function Finish(parts: seq<Partial>, rest: seq<Token>): Result<Evaluated, EvalError>
  {
    match Product(parts)
    case Ok(p) => Ok(Evaluated(p, rest))
    case Err(e) => Err(e)
  }

  /** The value of the tokens, read in order. */
  function Eval(tokens: seq<Token>): Result<nat, EvalError>
  {
    match PlusFirst(Reverse(tokens), [])
    case Ok(ev) => Ok(ev.value)
    case Err(e) => Err(e)
  }

  ghost predicate Agrees(r: Result<nat, EvalError>, rest: seq<Token>, spec: Result<Evaluated, EvalError>)
  {
    match spec
    case Ok(ev) => r == Ok(ev.value) && rest == ev.rest
    case Err(e) => r == Err(e)
  }

  method EvalImp(tokens: TokenStack) returns (r: Result<nat, EvalError>)
    modifies tokens
    ensures Agrees(r, tokens.stack, PlusFirst(old(tokens.stack), []))
    decreases |tokens.stack|
  {
    ghost var start := tokens.stack;
    var parts: seq<Partial> := [];
    while true
      invariant |tokens.stack| <= |start|
      invariant PlusFirst(start, []) == PlusFirst(tokens.stack, parts)
      decreases |tokens.stack|
    {
      var token := tokens.Pop();
      if token.None? {
        break;
      }
      match token.value
      case Plus =>
        if !(parts != [] && parts[|parts| - 1].Done?) {
          return Err(UnexpectedPlus);
        }
        parts := parts[..|parts| - 1] + [PlusBy(parts[|parts| - 1].u)];
      case Times =>
        if !(parts != [] && parts[|parts| - 1].Done?) {
          return Err(UnexpectedTimes);
        }
        parts := parts[..|parts| - 1] + [TimesBy(parts[|parts| - 1].u)];
      case Open =>
        var v := EvalImp(tokens);
        if v.Err? {
          return Err(v.error);
        }
        parts := PushValueOnto(parts, v.value);
      case Close =>
        break;
      case Value(v) =>
        parts := PushValueOnto(parts, v);
    }
    r := Product(parts);
  }

  method EvalTokens(tokens: seq<Token>) returns (r: Result<nat, EvalError>)
    ensures r == Eval(tokens)
  {
    var stack := new TokenStack(Reverse(tokens));
    r := EvalImp(stack);
  }

  // ---------------------------------------------------------------------
  // Meaning

  /** The evaluation of an expression as a product of sums: the product of
      the finished sums, and the sum still growing. */
  function Chain(e: Expr): (nat, nat)
    decreases e, 1
  {
    match e
    case Leaf(t) => (1, TermValue(t))
    case Bin(l, Add, t) => (Chain(l).0, Chain(l).1 + TermValue(t))
    case Bin(l, Mul, t) => (Chain(l).0 * Chain(l).1, TermValue(t))
  }

  /** The value of an expression: + before *. */
  function ValueOf(e: Expr): nat
    decreases e, 2
  {
    Chain(e).0 * Chain(e).1
  }

  function TermValue(t: Term): nat
    decreases t, 0
  {
    match t
    case Num(n) => n
    case Paren(e) => ValueOf(e)
  }

  /** The partial results an expression leaves: one factor per finished
      sum, then the sum still growing. */
  function PartsOf(e: Expr): (r: seq<Partial>)
    ensures r != [] && r[|r| - 1].Done?
    decreases e
  {
    match e
    case Leaf(t) => [Done(TermValue(t))]
    case Bin(l, Add, t) =>
      var q := PartsOf(l);
      q[..|q| - 1] + [Done(q[|q| - 1].u + TermValue(t))]
    case Bin(l, Mul, t) =>
      var q := PartsOf(l);
      q[..|q| - 1] + [TimesBy(q[|q| - 1].u), Done(TermValue(t))]
  }

  /** The factors before the growing sum multiply to the finished sums. */
  lemma {:induction false} FactorsOf(e: Expr)
    ensures PartsOf(e)[|PartsOf(e)| - 1] == Done(Chain(e).1)
    ensures Product(PartsOf(e)[..|PartsOf(e)| - 1]) == Ok(Chain(e).0)
  {
    match e
    case Leaf(t) =>
    case Bin(l, Add, t) =>
      FactorsOf(l);
      assert PartsOf(e)[..|PartsOf(e)| - 1] == PartsOf(l)[..|PartsOf(l)| - 1];
    case Bin(l, Mul, t) =>
      FactorsOf(l);
      var q := PartsOf(l);
      assert PartsOf(e)[..|PartsOf(e)| - 1] == q[..|q| - 1] + [TimesBy(q[|q| - 1].u)];
      ProductConcat(q[..|q| - 1], [TimesBy(q[|q| - 1].u)]);
      assert Product([TimesBy(q[|q| - 1].u)]) == Ok(Chain(l).1) by {
        assert [TimesBy(q[|q| - 1].u)][1..] == [];
      }
  }

  lemma PartsValue(e: Expr)
    ensures Product(PartsOf(e)) == Ok(ValueOf(e))
  {
    var q := PartsOf(e);
    FactorsOf(e);
    ProductConcat(q[..|q| - 1], [q[|q| - 1]]);
    assert q[..|q| - 1] + [q[|q| - 1]] == q;
    assert [q[|q| - 1]][1..] == [];
  }

  /** Partial results that a value can be pushed on without joining them. */
  predicate Settled(parts: seq<Partial>)
  {
    parts == [] || !parts[|parts| - 1].PlusBy?
  }

  /** An expression on top of the stack adds its partial results. */
  lemma {:induction false} PlusFirstExpr(below: seq<Token>, e: Expr, parts: seq<Partial>)
    requires Settled(parts)
    ensures PlusFirst(below + StackOf(e), parts) == PlusFirst(below, parts + PartsOf(e))
    decreases e, 1
  {
    match e
    case Leaf(t) =>
      PlusFirstTerm(below, t, parts);
    case Bin(l, op, t) =>
      PlusFirstExpr(below + TermStack(t) + [OpToken(op)], l, parts);
      PlusFirstTerm(below, t, AfterOperator(parts, l, op));
      BinStep(below, l, op, t, parts);
  }

  /** The partial results once the operator after `l` is popped. */
  function AfterOperator(parts: seq<Partial>, l: Expr, op: Op): seq<Partial>
  {
    var q := PartsOf(l);
    parts + (q[..|q| - 1] + [Pending(op, q[|q| - 1].u)])
  }

  lemma BinStep(below: seq<Token>, l: Expr, op: Op, t: Term, parts: seq<Partial>)
    requires PlusFirst(below + TermStack(t) + [OpToken(op)] + StackOf(l), parts)
          == PlusFirst(below + TermStack(t) + [OpToken(op)], parts + PartsOf(l))
    requires PlusFirst(below + TermStack(t), AfterOperator(parts, l, op))
          == PlusFirst(below, PushValue(AfterOperator(parts, l, op), TermValue(t)))
    ensures PlusFirst(below + StackOf(Bin(l, op, t)), parts) == PlusFirst(below, parts + PartsOf(Bin(l, op, t)))
  {
    var above := below + TermStack(t);
    var after := AfterOperator(parts, l, op);
    BinStack(below, l, op, t);
    PopAfter(above, l, op, parts);
    PushAfterOperator(parts, l, op, t);
    calc {
      PlusFirst(below + StackOf(Bin(l, op, t)), parts);
      PlusFirst(above + [OpToken(op)] + StackOf(l), parts);
      PlusFirst(above + [OpToken(op)], parts + PartsOf(l));
      PlusFirst(above, after);
      PlusFirst(below, PushValue(after, TermValue(t)));
      PlusFirst(below, parts + PartsOf(Bin(l, op, t)));
    }
  }

  lemma BinStack(below: seq<Token>, l: Expr, op: Op, t: Term)
    ensures below + StackOf(Bin(l, op, t)) == below + TermStack(t) + [OpToken(op)] + StackOf(l)
  {
    Regroup(below, TermStack(t), [OpToken(op)], StackOf(l));
  }

  lemma PopAfter(above: seq<Token>, l: Expr, op: Op, parts: seq<Partial>)
    ensures PlusFirst(above + [OpToken(op)], parts + PartsOf(l)) == PlusFirst(above, AfterOperator(parts, l, op))
  {
    var q := PartsOf(l);
    PopOperator(above, op, parts + q);
    assert (parts + q)[|parts + q| - 1] == q[|q| - 1];
    assert (parts + q)[..|parts + q| - 1] + [Pending(op, q[|q| - 1].u)] == AfterOperator(parts, l, op);
  }

  /** The partial result an operator makes of the value before it. */
  function Pending(op: Op, u: nat): Partial
  {
    if op == Add then PlusBy(u) else TimesBy(u)
  }

  lemma PopOperator(stack: seq<Token>, op: Op, parts: seq<Partial>)
    requires parts != [] && parts[|parts| - 1].Done?
    ensures PlusFirst(stack + [OpToken(op)], parts)
         == PlusFirst(stack, parts[..|parts| - 1] + [Pending(op, parts[|parts| - 1].u)])
  {
    assert (stack + [OpToken(op)])[..|stack|] == stack;
  }

  lemma PushAfterOperator(parts: seq<Partial>, l: Expr, op: Op, t: Term)
    ensures PushValue(parts + (PartsOf(l)[..|PartsOf(l)| - 1] + [Pending(op, PartsOf(l)[|PartsOf(l)| - 1].u)]), TermValue(t))
         == parts + PartsOf(Bin(l, op, t))
  {
    var q := PartsOf(l);
    var pre, u := q[..|q| - 1], q[|q| - 1].u;
    assert parts + (pre + [Pending(op, u)]) == (parts + pre) + [Pending(op, u)] by {
      AssocParts(parts, pre, [Pending(op, u)]);
    }
    if op == Add {
      PushAfterPlus(parts, pre, u, TermValue(t), PartsOf(Bin(l, op, t)));
    } else {
      PushAfterTimes(parts, pre, u, TermValue(t), PartsOf(Bin(l, op, t)));
    }
  }

  lemma PushAfterPlus(parts: seq<Partial>, pre: seq<Partial>, u: nat, v: nat, after: seq<Partial>)
    requires after == pre + [Done(u + v)]
    ensures PushValue((parts + pre) + [PlusBy(u)], v) == parts + after
  {
    PushOnPending(parts + pre, PlusBy(u), v);
    AssocParts(parts, pre, [Done(u + v)]);
  }

  lemma PushAfterTimes(parts: seq<Partial>, pre: seq<Partial>, u: nat, v: nat, after: seq<Partial>)
    requires after == pre + [TimesBy(u), Done(v)]
    ensures PushValue((parts + pre) + [TimesBy(u)], v) == parts + after
  {
    PushOnPending(parts + pre, TimesBy(u), v);
    AssocParts(parts, pre, [TimesBy(u), Done(v)]);
  }

  /** Pushing onto a pending sum completes it; pushing onto a pending
      product leaves it below the new value. */
  lemma PushOnPending(below: seq<Partial>, p: Partial, v: nat)
    requires p.PlusBy? || p.TimesBy?
    ensures p.PlusBy? ==> PushValue(below + [p], v) == below + [Done(p.u + v)]
    ensures p.TimesBy? ==> PushValue(below + [p], v) == below + [p, Done(v)]
  {
    assert (below + [p])[..|below|] == below;
  }

  lemma AssocParts(a: seq<Partial>, b: seq<Partial>, c: seq<Partial>)
    ensures a + (b + c) == a + b + c
  {
  }

  /** A term on top of the stack pushes its value. */
  lemma {:induction false} PlusFirstTerm(below: seq<Token>, t: Term, parts: seq<Partial>)
    ensures PlusFirst(below + TermStack(t), parts) == PlusFirst(below, PushValue(parts, TermValue(t)))
    decreases t, 0
  {
    match t
    case Num(n) =>
      PopValue(below, n, parts);
    case Paren(e) =>
      var inside := below + [Close] + StackOf(e);
      assert PlusFirst(inside, []) == Ok(Evaluated(ValueOf(e), below)) by {
        assert PlusFirst(inside, []) == PlusFirst(below + [Close], PartsOf(e)) by {
          PlusFirstExpr(below + [Close], e, []);
          assert [] + PartsOf(e) == PartsOf(e);
        }
        PartsValue(e);
        PopClose(below, PartsOf(e));
      }
      assert below + TermStack(t) == inside + [Open] by {
        Regroup(below, [Close], StackOf(e), [Open]);
      }
      PopOpen(inside, below, ValueOf(e), parts);
  }

  /** A value on top of the stack is pushed. */
  lemma PopValue(below: seq<Token>, n: nat, parts: seq<Partial>)
    ensures PlusFirst(below + [Value(n)], parts) == PlusFirst(below, PushValue(parts, n))
  {
    assert (below + [Value(n)])[..|below|] == below;
  }

  /** A close on top of the stack ends the group with the product of the
      parts. */
  lemma PopClose(below: seq<Token>, parts: seq<Partial>)
    requires Product(parts).Ok?
    ensures PlusFirst(below + [Close], parts) == Ok(Evaluated(Product(parts).value, below))
  {
    assert (below + [Close])[..|below|] == below;
  }

  /** An open on top of the stack evaluates the group inside and pushes its
      value. */
  lemma PopOpen(inside: seq<Token>, below: seq<Token>, v: nat, parts: seq<Partial>)
    requires PlusFirst(inside, []) == Ok(Evaluated(v, below))
    ensures PlusFirst(inside + [Open], parts) == PlusFirst(below, PushValue(parts, v))
  {
    assert (inside + [Open])[..|inside|] == inside;
  }

  /** Evaluating the tokens of an expression gives the product of its sums. */
  lemma EvalExpr(e: Expr)
    ensures Eval(Tokens(e)) == Ok(ValueOf(e))
  {
    ReverseTokens(e);
    PlusFirstExpr([], e, []);
    assert [] + StackOf(e) == StackOf(e);
    assert [] + PartsOf(e) == PartsOf(e);
    PartsValue(e);
  }

  /** No tokens make the empty product, 1. */
  lemma EvalNothing()
    ensures Eval([]) == Ok(1)
  {
    assert Reverse([]) == [];
  }

  /** An operator with no value before it is an error. */
  lemma LeadingOperator(op: Op, tokens: seq<Token>)
    ensures Eval([OpToken(op)] + tokens) == Err(if op == Add then UnexpectedPlus else UnexpectedTimes)
  {
    ReverseConcat([OpToken(op)], tokens);
    assert Reverse([OpToken(op)] + tokens)[..|tokens|] == Reverse(tokens);
  }

  /** 1 + 2 * 3 + 4 * 5 + 6 is 231. */
  lemma Sample(e: Expr)
    requires e == Bin(Bin(Bin(Bin(Bin(Leaf(Num(1)), Add, Num(2)), Mul, Num(3)), Add, Num(4)), Mul, Num(5)), Add, Num(6))
    ensures Eval(Tokens(e)) == Ok(231)
  {
    var e1 := Bin(Leaf(Num(1)), Add, Num(2));
    assert Chain(e1) == (1, 3);
    var e2 := Bin(e1, Mul, Num(3));
    assert Chain(e2) == (3, 3);
    var e3 := Bin(e2, Add, Num(4));
    assert Chain(e3) == (3, 7);
    var e4 := Bin(e3, Mul, Num(5));
    assert Chain(e4) == (21, 5);
    assert Chain(e) == (21, 11);
    EvalExpr(e);
  }

  /** 1 + (2 * 3) + (4 * (5 + 6)) is 51. */
  lemma SampleParens(e: Expr)
    requires e == Bin(Bin(Leaf(Num(1)), Add, Paren(Bin(Leaf(Num(2)), Mul, Num(3)))), Add,
                      Paren(Bin(Leaf(Num(4)), Mul, Paren(Bin(Leaf(Num(5)), Add, Num(6))))))
    ensures Eval(Tokens(e)) == Ok(51)
  {
    var sum56 := Bin(Leaf(Num(5)), Add, Num(6));
    assert ValueOf(sum56) == 11;
    var product := Bin(Leaf(Num(4)), Mul, Paren(sum56));
    assert Chain(product) == (4, 11);
    var product23 := Bin(Leaf(Num(2)), Mul, Num(3));
    assert ValueOf(product23) == 6;
    assert Chain(Bin(Leaf(Num(1)), Add, Paren(product23))) == (1, 7);
    EvalExpr(e);
  }
}
