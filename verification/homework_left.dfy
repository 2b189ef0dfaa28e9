/** The first homework evaluator (2020/src/day18/part1.rs): + and * have the
    same precedence and apply strictly left to right. */
module HomeworkLeft {
  import opened Outcomes
  import opened Homework

  /** A value and the tokens left on the stack after it. */
  datatype Evaluated = Evaluated(value: nat, rest: seq<Token>)

  /** The end of an expression: only a finished value is a result. */
  function Finish(op: Option<Partial>, rest: seq<Token>): (r: Result<Evaluated, EvalError>)
    ensures r.Ok? <==> op.Some? && op.value.Done?
    ensures r.Ok? ==> r.value == Evaluated(op.value.u, rest)
  {
    match op
    case None => Err(ExpectedTokens)
    case Some(PlusBy(_)) => Err(UnsatisfiedPlus)
    case Some(TimesBy(_)) => Err(UnsatisfiedTimes)
    case Some(Done(u)) => Ok(Evaluated(u, rest))
  }

  /** A value joins the pending operation, or starts one. */
  function Combine(op: Option<Partial>, v: nat): Result<Partial, EvalError>
  {
    if op.None? then Ok(Done(v)) else ApplyPartial(op.value, v)
  }

  /** Evaluating the tokens popped from `stack`, having reached `op`, up to
      a closing parenthesis or the bottom of the stack. */
  function Left(stack: seq<Token>, op: Option<Partial>): (r: Result<Evaluated, EvalError>)
    ensures r.Ok? ==> |r.value.rest| <= |stack|
    decreases |stack|
  {
    if stack == [] then Finish(op, [])
    else
      var rest := stack[..|stack| - 1];
      match stack[|stack| - 1]
      case Plus =>
        if op.Some? && op.value.Done? then Left(rest, Some(PlusBy(op.value.u))) else Err(UnexpectedPlus)
      case Times =>
        if op.Some? && op.value.Done? then Left(rest, Some(TimesBy(op.value.u))) else Err(UnexpectedTimes)
      case Open =>
        (match Left(rest, None)
         case Err(e) => Err(e)
         case Ok(inner) =>
           match Combine(op, inner.value)
           case Err(e) => Err(e)
           case Ok(p) => Left(inner.rest, Some(p)))
      case Close => Finish(op, rest)
      case Value(v) =>
        match Combine(op, v)
        case Err(e) => Err(e)
        case Ok(p) => Left(rest, Some(p))
  }

  /** The value of the tokens, read in order. */
  function Eval(tokens: seq<Token>): Result<nat, EvalError>
  {
    match Left(Reverse(tokens), None)
    case Ok(ev) => Ok(ev.value)
    case Err(e) => Err(e)
  }

  /** The method and the function agree: the same error, or the same value
      with the same tokens left. */
  ghost predicate Agrees(r: Result<nat, EvalError>, rest: seq<Token>, spec: Result<Evaluated, EvalError>)
  {
    match spec
    case Ok(ev) => r == Ok(ev.value) && rest == ev.rest
    case Err(e) => r == Err(e)
  }

  method EvalImp(tokens: TokenStack) returns (r: Result<nat, EvalError>)
    modifies tokens
    ensures Agrees(r, tokens.stack, Left(old(tokens.stack), None))
    decreases |tokens.stack|
  {
    ghost var start := tokens.stack;
    var op: Option<Partial> := None;
    while true
      invariant |tokens.stack| <= |start|
      invariant Left(start, None) == Left(tokens.stack, op)
      decreases |tokens.stack|
    {
      ghost var before := tokens.stack;
      var token := tokens.Pop();
      if token.None? {
        break;
      }
      match token.value
      case Plus =>
        if !(op.Some? && op.value.Done?) {
          return Err(UnexpectedPlus);
        }
        op := Some(PlusBy(op.value.u));
      case Times =>
        if !(op.Some? && op.value.Done?) {
          return Err(UnexpectedTimes);
        }
        op := Some(TimesBy(op.value.u));
      case Open =>
        var v := EvalImp(tokens);
        if v.Err? {
          return Err(v.error);
        }
        var p := Combine(op, v.value);
        if p.Err? {
          return Err(p.error);
        }
        op := Some(p.value);
      case Close =>
        break;
      case Value(v) =>
        var p := Combine(op, v);
        if p.Err? {
          return Err(p.error);
        }
        op := Some(p.value);
    }
    match op
    case Some(PlusBy(_)) => r := Err(UnsatisfiedPlus);
    case Some(TimesBy(_)) => r := Err(UnsatisfiedTimes);
    case Some(Done(u)) => r := Ok(u);
    case None => r := Err(ExpectedTokens);
  }

  method EvalTokens(tokens: seq<Token>) returns (r: Result<nat, EvalError>)
    ensures r == Eval(tokens)
  {
    var stack := new TokenStack(Reverse(tokens));
    r := EvalImp(stack);
  }

  // ---------------------------------------------------------------------
  // Meaning

  function Apply(op: Op, a: nat, b: nat): nat
  {
    match op
    case Add => a + b
    case Mul => a * b
  }

  /** The value of an expression, operators applied left to right. */
  function ValueOf(e: Expr): nat
    decreases e, 1
  {
    match e
    case Leaf(t) => TermValue(t)
    case Bin(l, op, t) => Apply(op, ValueOf(l), TermValue(t))
  }

  function TermValue(t: Term): nat
    decreases t, 0
  {
    match t
    case Num(n) => n
    case Paren(e) => ValueOf(e)
  }

  /** An expression on top of the stack evaluates to its value, leaving
      the stack beneath it. */
  lemma {:induction false} LeftExpr(below: seq<Token>, e: Expr)
    ensures Left(below + StackOf(e), None) == Left(below, Some(Done(ValueOf(e))))
    decreases e, 1
  {
    match e
    case Leaf(t) =>
      LeftTerm(below, t, None);
    case Bin(l, op, t) =>
      var above := below + TermStack(t) + [OpToken(op)];
      assert Left(below + StackOf(e), None) == Left(above, Some(Done(ValueOf(l)))) by {
        Regroup(below, TermStack(t), [OpToken(op)], StackOf(l));
        LeftExpr(above, l);
      }
      var p := if op == Add then PlusBy(ValueOf(l)) else TimesBy(ValueOf(l));
      LeftOperator(below + TermStack(t), op, ValueOf(l));
      LeftTerm(below, t, Some(p));
  }

  /** An operator on top of a finished value leaves it pending. */
  lemma LeftOperator(below: seq<Token>, op: Op, u: nat)
    ensures Left(below + [OpToken(op)], Some(Done(u)))
         == Left(below, Some(if op == Add then PlusBy(u) else TimesBy(u)))
  {
    assert (below + [OpToken(op)])[..|below|] == below;
  }

  /** A term on top of the stack joins the pending operation. */
  lemma {:induction false} LeftTerm(below: seq<Token>, t: Term, op: Option<Partial>)
    requires op.None? || !op.value.Done?
    ensures Left(below + TermStack(t), op) == Left(below, Some(Combine(op, TermValue(t)).value))
    decreases t, 0
  {
    match t
    case Num(n) =>
      assert (below + TermStack(t))[..|below + TermStack(t)| - 1] == below;
    case Paren(e) =>
      var inside := below + [Close] + StackOf(e);
      assert (below + TermStack(t))[..|below + TermStack(t)| - 1] == inside;
      LeftExpr(below + [Close], e);
      assert Left(below + [Close], Some(Done(ValueOf(e)))) == Ok(Evaluated(ValueOf(e), below));
  }

  /** Evaluating the tokens of an expression gives its left-to-right value. */
  lemma EvalExpr(e: Expr)
    ensures Eval(Tokens(e)) == Ok(ValueOf(e))
  {
    ReverseTokens(e);
    LeftExpr([], e);
    assert [] + StackOf(e) == StackOf(e);
  }

  /** No tokens is an error: there is no value. */
  lemma EvalNothing()
    ensures Eval([]) == Err(ExpectedTokens)
  {
    assert Reverse([]) == [];
  }

  /** An operator with no value before it is an error. */
  lemma LeadingOperator(op: Op, tokens: seq<Token>)
    ensures Eval([OpToken(op)] + tokens) == Err(if op == Add then UnexpectedPlus else UnexpectedTimes)
  {
    ReverseConcat([OpToken(op)], tokens);
    assert Reverse([OpToken(op)] + tokens)[..|tokens|] == Reverse(tokens);
  }

  /** An operator with nothing after it is an error. */
  lemma TrailingOperator(e: Expr, op: Op)
    ensures Eval(Tokens(e) + [OpToken(op)]) == Err(if op == Add then UnsatisfiedPlus else UnsatisfiedTimes)
  {
    ReverseConcat(Tokens(e), [OpToken(op)]);
    ReverseTokens(e);
    LeftExpr([OpToken(op)], e);
    assert [OpToken(op)] + StackOf(e) == Reverse(Tokens(e) + [OpToken(op)]);
    assert [OpToken(op)][..0] == [];
  }

  /** 1 + 2 * 3 + 4 * 5 + 6 is 71. */
  lemma Sample(e: Expr)
    requires e == Bin(Bin(Bin(Bin(Bin(Leaf(Num(1)), Add, Num(2)), Mul, Num(3)), Add, Num(4)), Mul, Num(5)), Add, Num(6))
    ensures Eval(Tokens(e)) == Ok(71)
  {
    EvalExpr(e);
  }

  /** 1 + (2 * 3) + (4 * (5 + 6)) is 51. */
  lemma SampleParens(e: Expr)
    requires e == Bin(Bin(Leaf(Num(1)), Add, Paren(Bin(Leaf(Num(2)), Mul, Num(3)))), Add,
                      Paren(Bin(Leaf(Num(4)), Mul, Paren(Bin(Leaf(Num(5)), Add, Num(6))))))
    ensures Eval(Tokens(e)) == Ok(51)
  {
    var six := Bin(Leaf(Num(2)), Mul, Num(3));
    var eleven := Bin(Leaf(Num(5)), Add, Num(6));
    var fortyFour := Bin(Leaf(Num(4)), Mul, Paren(eleven));
    var seven := Bin(Leaf(Num(1)), Add, Paren(six));
    assert ValueOf(six) == 6 && ValueOf(eleven) == 11;
    assert ValueOf(fortyFour) == 44;
    assert ValueOf(seven) == 7;
    assert ValueOf(Bin(seven, Add, Paren(fortyFour))) == 51;
    EvalExpr(e);
  }
}
