/** The navigation-subsystem syntax checker of 2021/src/bin/day10.rs: lines
    of bracket bytes are corrupt, or incomplete and completed by closers. */
module Brackets {
  import opened Outcomes
  import opened Arithmetic

  newtype byte = b: int | 0 <= b < 256

  /** The four kinds of bracket. */
  datatype Kind = Paren | Square | Curly | Angle

  function Opener(k: Kind): byte
  {
    match k
    case Paren => 40   // (
    case Square => 91  // [
    case Curly => 123  // {
    case Angle => 60   // <
  }

  function Closer(k: Kind): byte
  {
    match k
    case Paren => 41   // )
    case Square => 93  // ]
    case Curly => 125  // }
    case Angle => 62   // >
  }

  /** The pairs of brackets, in order. */
  const Pairs: seq<(byte, byte)> := [(40, 41), (91, 93), (123, 125), (60, 62)]

  /** The closers, in scoring order. */
  const Closers: seq<byte> := [41, 93, 125, 62]

  /** The opener of the first pair closed by `closer`. */
  function FindMatchingOpener(closer: byte): (r: Option<byte>)
    ensures r.Some? <==> closer in Closers
    ensures forall k :: r == Some(Opener(k)) <==> closer == Closer(k)
  {
    OpenerIn(Pairs, closer)
  }

  function OpenerIn(pairs: seq<(byte, byte)>, closer: byte): (r: Option<byte>)
    ensures r.Some? <==> exists i :: 0 <= i < |pairs| && pairs[i].1 == closer
    ensures r.Some? ==> exists i :: 0 <= i < |pairs| && pairs[i] == (r.value, closer)
  {
    if pairs == [] then None
    else if pairs[0].1 == closer then Some(pairs[0].0)
    else OpenerIn(pairs[1..], closer)
  }

  /** The closer of the first pair opened by `opener`. */
  function FindMatchingCloser(opener: byte): (r: Option<byte>)
    ensures forall k :: r == Some(Closer(k)) <==> opener == Opener(k)
    ensures r.None? <==> forall k :: opener != Opener(k)
  {
    assert Pairs[0] == (Opener(Paren), Closer(Paren)) && Pairs[1] == (Opener(Square), Closer(Square));
    assert Pairs[2] == (Opener(Curly), Closer(Curly)) && Pairs[3] == (Opener(Angle), Closer(Angle));
    CloserIn(Pairs, opener)
  }

  function CloserIn(pairs: seq<(byte, byte)>, opener: byte): (r: Option<byte>)
    ensures r.Some? <==> exists i :: 0 <= i < |pairs| && pairs[i].0 == opener
    ensures r.Some? ==> exists i :: 0 <= i < |pairs| && pairs[i] == (opener, r.value)
  {
    if pairs == [] then None
    else if pairs[0].0 == opener then Some(pairs[0].1)
    else CloserIn(pairs[1..], opener)
  }

  /** Matching is the same relation read either way. */
  lemma MatchingInverse(opener: byte, closer: byte)
    ensures FindMatchingOpener(closer) == Some(opener) <==> FindMatchingCloser(opener) == Some(closer)
  {
    if FindMatchingOpener(closer).Some? {
      var k :| closer == Closer(k);
      assert FindMatchingOpener(closer) == Some(Opener(k));
    }
    if FindMatchingCloser(opener).Some? {
      var k :| opener == Opener(k);
      assert FindMatchingCloser(opener) == Some(Closer(k));
    }
  }

  // ---------------------------------------------------------------------
  // Checking a line

  datatype BracketError = BufferUnderrun | UnexpectedCloser(closer: byte)

  /** Where checking a line has got to: the unmatched openers so far, a
      closer that did not match, or a closer with nothing to close. */
  datatype Scan = Open(stack: seq<byte>) | Corrupt(closer: byte) | Underrun

  /** One byte: a closer pops the most recent opener and must match it;
      anything else is pushed. */
  function Step(s: Scan, c: byte): Scan
  {
    match s
    case Open(stack) =>
      (match FindMatchingOpener(c)
       case None => Open(stack + [c])
       case Some(o) =>
         if stack == [] then Underrun
         else if stack[|stack| - 1] != o then Corrupt(c)
         else Open(stack[..|stack| - 1]))
    case _ => s
  }

  function ScanFrom(s: Scan, line: seq<byte>): Scan
    decreases |line|
  {
    if line == [] then s else Step(ScanFrom(s, line[..|line| - 1]), line[|line| - 1])
  }

  lemma {:induction false} ScanConcat(s: Scan, a: seq<byte>, b: seq<byte>)
    ensures ScanFrom(s, a + b) == ScanFrom(ScanFrom(s, a), b)
    decreases |b|
  {
    if b == [] {
      assert a + b == a;
    } else {
      assert (a + b)[..|a + b| - 1] == a + b[..|b| - 1];
      ScanConcat(s, a, b[..|b| - 1]);
    }
  }

  /** Once corrupt or underrun, the rest of the line does not matter. */
  lemma {:induction false} ScanStops(s: Scan, line: seq<byte>)
    requires !s.Open?
    ensures ScanFrom(s, line) == s
    decreases |line|
  {
    if line != [] {
      ScanStops(s, line[..|line| - 1]);
    }
  }

  /** The outcome of checking a whole line: its first corrupt closer, if
      any; a closer with no opener before it is an error. */
  function CorruptCloser(line: seq<byte>): Result<Option<byte>, BracketError>
  {
    match ScanFrom(Open([]), line)
    case Open(_) => Ok(None)
    case Corrupt(c) => Ok(Some(c))
    case Underrun => Err(BufferUnderrun)
  }

  method FindCorruptCloser(line: seq<byte>) returns (r: Result<Option<byte>, BracketError>)
    ensures r == CorruptCloser(line)
  {
    var openers: seq<byte> := [];
    for i := 0 to |line|
      invariant ScanFrom(Open([]), line[..i]) == Open(openers)
    {
      assert line[..i + 1][..i] == line[..i];
      var c := line[i];
      var o := FindMatchingOpener(c);
      if o.Some? {
        if openers == [] {
          ScanConcat(Open([]), line[..i + 1], line[i + 1..]);
          ScanStops(Underrun, line[i + 1..]);
          assert line[..i + 1] + line[i + 1..] == line;
          return Err(BufferUnderrun);
        }
        var top := openers[|openers| - 1];
        openers := openers[..|openers| - 1];
        if top != o.value {
          ScanConcat(Open([]), line[..i + 1], line[i + 1..]);
          ScanStops(Corrupt(c), line[i + 1..]);
          assert line[..i + 1] + line[i + 1..] == line;
          return Ok(Some(c));
        }
      } else {
        openers := openers + [c];
      }
    }
    assert line[..|line|] == line;
    r := Ok(None);
  }

  /** A corrupt closer is always one of the four closers. */
  lemma {:induction false} CorruptIsCloser(s: Scan, line: seq<byte>)
    requires s.Open?
    ensures ScanFrom(s, line).Corrupt? ==> ScanFrom(s, line).closer in Closers
    decreases |line|
  {
    if line != [] {
      CorruptIsCloser(s, line[..|line| - 1]);
    }
  }

  // ---------------------------------------------------------------------
  // Well-nested text

  /** A chunk: a pair of brackets around more chunks. */
  datatype Chunk = Chunk(kind: Kind, inner: seq<Chunk>)

  function Text(c: Chunk): seq<byte>
  {
    [Opener(c.kind)] + Texts(c.inner) + [Closer(c.kind)]
  }

  function Texts(cs: seq<Chunk>): seq<byte>
  {
    if cs == [] then [] else Text(cs[0]) + Texts(cs[1..])
  }

  /** Well-nested text leaves the openers before it as they were. */
  lemma {:induction false} TextKeepsStack(c: Chunk, stack: seq<byte>)
    ensures ScanFrom(Open(stack), Text(c)) == Open(stack)
    decreases c, 1
  {
    var o, cl := Opener(c.kind), Closer(c.kind);
    ScanConcat(Open(stack), [o] + Texts(c.inner), [cl]);
    ScanConcat(Open(stack), [o], Texts(c.inner));
    assert ScanFrom(Open(stack), [o]) == Step(ScanFrom(Open(stack), []), o);
    assert ScanFrom(Open(stack), [o]) == Open(stack + [o]);
    TextsKeepStack(c.inner, stack + [o]);
    assert ScanFrom(Open(stack + [o]), [cl]) == Step(Open(stack + [o]), cl);
    assert (stack + [o])[..|stack|] == stack;
  }

  lemma {:induction false} TextsKeepStack(cs: seq<Chunk>, stack: seq<byte>)
    ensures ScanFrom(Open(stack), Texts(cs)) == Open(stack)
    decreases cs, 0
  {
    if cs != [] {
      ScanConcat(Open(stack), Text(cs[0]), Texts(cs[1..]));
      TextKeepsStack(cs[0], stack);
      TextsKeepStack(cs[1..], stack);
    }
  }

  /** Well-nested lines are not corrupt. */
  lemma NestedIsNotCorrupt(cs: seq<Chunk>)
    ensures CorruptCloser(Texts(cs)) == Ok(None)
  {
    TextsKeepStack(cs, []);
  }

  /** After well-nested text, a closer that does not match the most recent
      unmatched opener is the corrupt closer. */
  lemma WrongCloserIsCorrupt(stack: seq<byte>, cs: seq<Chunk>, k: Kind)
    requires stack != [] && stack[|stack| - 1] != Opener(k)
    ensures ScanFrom(Open(stack), Texts(cs) + [Closer(k)]) == Corrupt(Closer(k))
  {
    ScanConcat(Open(stack), Texts(cs), [Closer(k)]);
    TextsKeepStack(cs, stack);
    assert ScanFrom(Open(stack), [Closer(k)]) == Step(Open(stack), Closer(k));
  }

  // ---------------------------------------------------------------------
  // Completing a line

  /** The openers left on the stack: any closer pops, whether or not it
      matches, and popping nothing leaves nothing; anything else is pushed. */
  function Openers(line: seq<byte>): seq<byte>
    decreases |line|
  {
    if line == [] then []
    else
      var stack := Openers(line[..|line| - 1]);
      var c := line[|line| - 1];
      if c in Closers then (if stack == [] then [] else stack[..|stack| - 1])
      else stack + [c]
  }

  method FindOpeners(line: seq<byte>) returns (openers: seq<byte>)
    ensures openers == Openers(line)
  {
    openers := [];
    for i := 0 to |line|
      invariant openers == Openers(line[..i])
    {
      assert line[..i + 1][..i] == line[..i];
      var c := line[i];
      if c in Closers {
        if openers != [] {
          openers := openers[..|openers| - 1];
        }
      } else {
        openers := openers + [c];
      }
    }
    assert line[..|line|] == line;
  }

  /** On a line that is not corrupt, the openers left are the unmatched
      openers the check ends with. */
  lemma {:induction false} OpenersAgree(line: seq<byte>)
    requires ScanFrom(Open([]), line).Open?
    ensures Openers(line) == ScanFrom(Open([]), line).stack
    decreases |line|
  {
    if line != [] {
      var init := line[..|line| - 1];
      OpenersAgree(init);
    }
  }

  /** The closers that complete `openers`, the most recent first; bytes
      that open nothing add nothing. */
  function Complete(openers: seq<byte>): (r: seq<byte>)
    ensures |r| <= |openers|
    ensures forall i :: 0 <= i < |r| ==> r[i] in Closers
    decreases |openers|
  {
    if openers == [] then []
    else
      var closer := FindMatchingCloser(openers[|openers| - 1]);
      (if closer.Some? then [closer.value] else []) + Complete(openers[..|openers| - 1])
  }

  predicate IsOpener(b: byte)
  {
    exists k :: b == Opener(k)
  }

  /** Completion closes every opener, in the right order. */
  lemma {:induction false} CompleteCloses(stack: seq<byte>)
    requires forall i :: 0 <= i < |stack| ==> IsOpener(stack[i])
    ensures ScanFrom(Open(stack), Complete(stack)) == Open([])
    decreases |stack|
  {
    if stack != [] {
      var init, o := stack[..|stack| - 1], stack[|stack| - 1];
      var k :| o == Opener(k);
      assert FindMatchingCloser(o) == Some(Closer(k));
      ScanConcat(Open(stack), [Closer(k)], Complete(init));
      assert ScanFrom(Open(stack), [Closer(k)]) == Step(Open(stack), Closer(k));
      assert FindMatchingOpener(Closer(k)) == Some(o);
      CompleteCloses(init);
    }
  }

  predicate IsBracket(b: byte)
  {
    IsOpener(b) || b in Closers
  }

  /** Every byte the check pushes is not a closer. */
  lemma {:induction false} StackHasNoClosers(line: seq<byte>)
    requires ScanFrom(Open([]), line).Open?
    ensures forall i :: 0 <= i < |ScanFrom(Open([]), line).stack| ==> ScanFrom(Open([]), line).stack[i] in line
    decreases |line|
  {
    if line != [] {
      var init := line[..|line| - 1];
      StackHasNoClosers(init);
    }
  }

  /** An incomplete line of brackets followed by its completion is no
      longer missing any closer. */
  lemma CompletionCloses(line: seq<byte>)
    requires forall i :: 0 <= i < |line| ==> IsBracket(line[i])
    requires CorruptCloser(line) == Ok(None)
    ensures ScanFrom(Open([]), line + Complete(Openers(line))) == Open([])
  {
    var stack := ScanFrom(Open([]), line).stack;
    OpenersAgree(line);
    StackHasNoClosers(line);
    PushedAreOpeners(line);
    ScanConcat(Open([]), line, Complete(stack));
    CompleteCloses(stack);
  }

  lemma {:induction false} PushedAreOpeners(line: seq<byte>)
    requires forall i :: 0 <= i < |line| ==> IsBracket(line[i])
    requires ScanFrom(Open([]), line).Open?
    ensures forall i :: 0 <= i < |ScanFrom(Open([]), line).stack| ==> IsOpener(ScanFrom(Open([]), line).stack[i])
    decreases |line|
  {
    if line != [] {
      var init := line[..|line| - 1];
      PushedAreOpeners(init);
    }
  }

  // ---------------------------------------------------------------------
  // Scores

  /** The score of a corrupt closer. */
  function CorruptScore(closer: byte): (r: Result<nat, BracketError>)
    ensures r.Ok? <==> closer in Closers
  {
    match closer
    case 41 => Ok(3)
    case 93 => Ok(57)
    case 125 => Ok(1197)
    case 62 => Ok(25137)
    case _ => Err(UnexpectedCloser(closer))
  }

  /** The total score of the corrupt lines, line by line. Scoring a corrupt
      line never meets an unexpected closer: the only failure is a closer
      with nothing to close. */
  function CorruptionScore(lines: seq<seq<byte>>): (r: Result<nat, BracketError>)
    ensures r.Err? ==> r == Err(BufferUnderrun)
  {
    if lines == [] then Ok(0)
    else
      CorruptIsCloser(Open([]), lines[0]);
      match CorruptCloser(lines[0])
      case Err(e) => Err(e)
      case Ok(found) =>
        var score := if found.Some? then CorruptScore(found.value) else Ok(0);
        match score
        case Err(e) => Err(e)
        case Ok(s) =>
          match CorruptionScore(lines[1..])
          case Err(e) => Err(e)
          case Ok(total) => Ok(s + total)
  }

  /** The position of a closer in scoring order. */
  function Rank(b: byte): (r: Option<nat>)
    ensures r.Some? <==> b in Closers
    ensures r.Some? ==> r.value < 4 && Closers[r.value] == b
  {
    if b == 41 then Some(0)
    else if b == 93 then Some(1)
    else if b == 125 then Some(2)
    else if b == 62 then Some(3)
    else None
  }

  /** No byte of `s` is a closer. */
  predicate NoCloser(s: seq<byte>)
  {
    forall i :: 0 <= i < |s| ==> s[i] !in Closers
  }

  /** The completion score: five times the score so far plus the rank, from
      1 to 4, of each closer in turn; other bytes are skipped, so the score
      is 0 exactly when there is no closer. */
  function ScoreClosers(closers: seq<byte>): (r: nat)
    ensures r == 0 <==> NoCloser(closers)
    decreases |closers|
  {
    if closers == [] then 0
    else
      var score := ScoreClosers(closers[..|closers| - 1]);
      var rank := Rank(closers[|closers| - 1]);
      if rank.Some? then 5 * score + rank.value + 1 else score
  }

  /** The closers a score stands for, read back digit by digit. */
  function Unscore(score: nat): seq<byte>
  {
    if score == 0 || (score - 1) % 5 == 4 then []
    else Unscore((score - 1) / 5) + [Closers[(score - 1) % 5]]
  }

  /** A closer at the end multiplies the score by five and adds its
      rank plus one. */
  lemma ScoreSnoc(init: seq<byte>, last: byte)
    requires last in Closers
    ensures ScoreClosers(init + [last]) == 5 * ScoreClosers(init) + Rank(last).value + 1
  {
    assert (init + [last])[..|init|] == init;
  }

  /** Undoing one step of the score recovers the closer it added. */
  lemma UnscoreStep(score: nat, rank: nat, next: nat)
    requires rank < 4 && next == 5 * score + rank + 1
    ensures Unscore(next) == Unscore(score) + [Closers[rank]]
  {
    var x := 5 * score + rank;
    assert x / 5 == score && x % 5 == rank by {
      DivModUnique(x, 5, score, rank);
    }
  }

  /** A score of closers determines them. */
  lemma {:induction false} UnscoreScore(closers: seq<byte>)
    requires forall i :: 0 <= i < |closers| ==> closers[i] in Closers
    ensures Unscore(ScoreClosers(closers)) == closers
    decreases |closers|
  {
    if closers != [] {
      var init, last := closers[..|closers| - 1], closers[|closers| - 1];
      UnscoreScore(init);
      UnscoreSnoc(init, last);
      assert init + [last] == closers;
    }
  }

  lemma UnscoreSnoc(init: seq<byte>, last: byte)
    requires Unscore(ScoreClosers(init)) == init && last in Closers
    ensures Unscore(ScoreClosers(init + [last])) == init + [last]
  {
    var s0, rank := ScoreClosers(init), Rank(last).value;
    var s1 := ScoreClosers(init + [last]);
    assert s1 == 5 * s0 + rank + 1 by {
      ScoreSnoc(init, last);
    }
    UnscoreStep(s0, rank, s1);
  }

  lemma ScoreInjective(a: seq<byte>, b: seq<byte>)
    requires forall i :: 0 <= i < |a| ==> a[i] in Closers
    requires forall i :: 0 <= i < |b| ==> b[i] in Closers
    requires ScoreClosers(a) == ScoreClosers(b)
    ensures a == b
  {
    UnscoreScore(a);
    UnscoreScore(b);
  }

  /** The completion score of a line; it reads back as the completion. */
  function ScoreLine(line: seq<byte>): (r: nat)
    ensures Unscore(r) == Complete(Openers(line))
  {
    UnscoreScore(Complete(Openers(line)));
    ScoreClosers(Complete(Openers(line)))
  }

  /** }}]])})] scores 288957. */
  lemma ScoreExample()
    ensures ScoreClosers([125, 125, 93, 93, 41, 125, 41, 93]) == 288957
  {
    var cs: seq<byte> := [125, 125, 93, 93, 41, 125, 41, 93];
    assert ScoreClosers(cs[..1]) == 3 by { assert cs[..1][..0] == []; }
    assert ScoreClosers(cs[..2]) == 18 by { assert cs[..2][..1] == cs[..1]; }
    assert ScoreClosers(cs[..3]) == 92 by { assert cs[..3][..2] == cs[..2]; }
    assert ScoreClosers(cs[..4]) == 462 by { assert cs[..4][..3] == cs[..3]; }
    assert ScoreClosers(cs[..5]) == 2311 by { assert cs[..5][..4] == cs[..4]; }
    assert ScoreClosers(cs[..6]) == 11558 by { assert cs[..6][..5] == cs[..5]; }
    assert ScoreClosers(cs[..7]) == 57791 by { assert cs[..7][..6] == cs[..6]; }
    assert cs[..8] == cs && cs[..7] == cs[..|cs| - 1];
  }
}
