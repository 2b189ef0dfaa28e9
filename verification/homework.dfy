/** The tokens and partial results shared by both evaluators of the math
    homework (2020/src/day18/token.rs and partial.rs), and a grammar of the
    expressions they evaluate. */
module Homework {
  import opened Outcomes

  datatype Token = Plus | Times | Open | Close | Value(n: nat)

  /** An operand waiting for its operator's right side, or a finished value. */
  datatype Partial = PlusBy(u: nat) | TimesBy(u: nat) | Done(u: nat)

  datatype EvalError =
    | UnexpectedPlus
    | UnexpectedTimes
    | ConsecutiveValues(first: nat, second: nat)
    | UnsatisfiedPlus
    | UnsatisfiedTimes
    | ExpectedTokens
    | BadSyntax

  /** A pending operation applied to its right operand; a finished value
      followed by another value is an error. */
  function ApplyPartial(p: Partial, v: nat): (r: Result<Partial, EvalError>)
    ensures p.PlusBy? ==> r == Ok(Done(p.u + v))
    ensures p.TimesBy? ==> r == Ok(Done(p.u * v))
    ensures p.Done? ==> r == Err(ConsecutiveValues(p.u, v))
  {
    match p
    case PlusBy(u) => Ok(Done(u + v))
    case TimesBy(u) => Ok(Done(u * v))
    case Done(u) => Err(ConsecutiveValues(u, v))
  }

  /** The source's token vector, used as a stack: the next token is the last. */
  class TokenStack {
    var stack: seq<Token>

    constructor (tokens: seq<Token>)
      ensures stack == tokens
    {
      stack := tokens;
    }

    method Pop() returns (t: Option<Token>)
      modifies this
      ensures old(stack) == [] ==> t.None? && stack == []
      ensures old(stack) != [] ==> t == Some(old(stack)[|old(stack)| - 1]) && stack == old(stack)[..|old(stack)| - 1]
    {
      if stack == [] {
        t := None;
      } else {
        t := Some(stack[|stack| - 1]);
        stack := stack[..|stack| - 1];
      }
    }
  }

  function Reverse(s: seq<Token>): (r: seq<Token>)
    ensures |r| == |s|
    ensures forall k :: 0 <= k < |s| ==> r[k] == s[|s| - 1 - k]
  {
    if s == [] then [] else Reverse(s[1..]) + [s[0]]
  }

  lemma ReverseConcat(a: seq<Token>, b: seq<Token>)
    ensures Reverse(a + b) == Reverse(b) + Reverse(a)
  {
    assert Reverse(a + b) == Reverse(b) + Reverse(a) by {
      assert forall k :: 0 <= k < |a + b| ==> Reverse(a + b)[k] == (Reverse(b) + Reverse(a))[k];
    }
  }

  // ---------------------------------------------------------------------
  // Expressions: terms joined left to right by operators

  datatype Op = Add | Mul

  datatype Term = Num(n: nat) | Paren(e: Expr)

  datatype Expr = Leaf(t: Term) | Bin(left: Expr, op: Op, right: Term)

  function OpToken(op: Op): Token
  {
    match op
    case Add => Plus
    case Mul => Times
  }

  /** The tokens of an expression, in reading order. */
  function Tokens(e: Expr): seq<Token>
    decreases e, 1
  {
    match e
    case Leaf(t) => TermTokens(t)
    case Bin(l, op, t) => Tokens(l) + [OpToken(op)] + TermTokens(t)
  }

  function TermTokens(t: Term): seq<Token>
    decreases t, 0
  {
    match t
    case Num(n) => [Value(n)]
    case Paren(e) => [Open] + Tokens(e) + [Close]
  }

  /** The tokens of an expression as a stack, the first token on top. */
  function StackOf(e: Expr): seq<Token>
    decreases e, 1
  {
    match e
    case Leaf(t) => TermStack(t)
    case Bin(l, op, t) => TermStack(t) + [OpToken(op)] + StackOf(l)
  }

  function TermStack(t: Term): seq<Token>
    decreases t, 0
  {
    match t
    case Num(n) => [Value(n)]
    case Paren(e) => [Close] + StackOf(e) + [Open]
  }

  /** Reversing the tokens of an expression stacks them with the first on top. */
  lemma {:induction false} ReverseTokens(e: Expr)
    ensures Reverse(Tokens(e)) == StackOf(e)
    decreases e, 1
  {
    match e
    case Leaf(t) => ReverseTermTokens(t);
    case Bin(l, op, t) =>
      var L, o, T := Tokens(l), [OpToken(op)], TermTokens(t);
      assert Reverse(L + o) == o + StackOf(l) by {
        ReverseConcat(L, o);
        ReverseTokens(l);
      }
      assert Reverse(T) == TermStack(t) by {
        ReverseTermTokens(t);
      }
      ReverseConcat(L + o, T);
      Assoc(TermStack(t), o, StackOf(l));
  }

  lemma {:induction false} ReverseTermTokens(t: Term)
    ensures Reverse(TermTokens(t)) == TermStack(t)
    decreases t, 0
  {
    match t
    case Num(n) =>
    case Paren(e) =>
      var E := Tokens(e);
      assert Reverse([Open] + E) == StackOf(e) + [Open] by {
        ReverseConcat([Open], E);
        ReverseTokens(e);
      }
      ReverseConcat([Open] + E, [Close]);
      Assoc([Close], StackOf(e), [Open]);
  }

  lemma Assoc(a: seq<Token>, b: seq<Token>, c: seq<Token>)
    ensures a + (b + c) == a + b + c
  {
  }

  lemma Regroup(a: seq<Token>, b: seq<Token>, c: seq<Token>, d: seq<Token>)
    ensures a + (b + c + d) == a + b + c + d
  {
  }
}
