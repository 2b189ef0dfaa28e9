/** The handheld game console of 2020/src/bin/day8.rs: a program of acc,
    jmp and nop instructions run until it halts or repeats an instruction,
    and repaired by flipping one jmp or nop. */
module Handheld {
  import opened Outcomes

  datatype Instruction = Acc(arg: int) | Jmp(arg: int) | Nop(arg: int)

  type Program = seq<Instruction>

  /** How a run ends: past the last instruction, or about to repeat one. */
  datatype Termination = Halt(acc: int) | Loop(acc: int)

  /** Runs the source aborts: a jump below instruction 0, or past the end. */
  datatype Fault = Underflow | OutOfBounds

  /** Why a puzzle has no answer: no run fits, or a run aborted. */
  datatype SolveError = NoSolution | Aborted(fault: Fault)

  /** A jump target; a target below 0 is an unsigned underflow. */
  function AddOffset(pc: nat, arg: int): (r: Result<nat, Fault>)
    ensures r.Ok? <==> pc + arg >= 0
    ensures r.Ok? ==> r.value == pc + arg
  {
    if arg < 0 then
      if -arg > pc then Err(Underflow) else Ok(pc - -arg)
    else Ok(pc + arg)
  }

  datatype State = State(pc: nat, acc: int)

  /** One instruction: acc adds its argument and moves on, jmp moves by its
      argument, nop moves on. */
  function Step(program: Program, s: State): (r: Result<State, Fault>)
    requires s.pc < |program|
    ensures program[s.pc].Acc? ==> r == Ok(State(s.pc + 1, s.acc + program[s.pc].arg))
    ensures program[s.pc].Nop? ==> r == Ok(State(s.pc + 1, s.acc))
    ensures program[s.pc].Jmp? ==> r.Ok? == (s.pc + program[s.pc].arg >= 0)
    ensures program[s.pc].Jmp? && r.Ok? ==> r.value == State(s.pc + program[s.pc].arg, s.acc)
  {
    match program[s.pc]
    case Acc(arg) => Ok(State(s.pc + 1, s.acc + arg))
    case Jmp(arg) =>
      (match AddOffset(s.pc, arg)
       case Ok(pc) => Ok(State(pc, s.acc))
       case Err(e) => Err(e))
    case Nop(_) => Ok(State(s.pc + 1, s.acc))
  }

  /** The instructions not yet executed. */
  function Unseen(program: Program, seen: set<nat>): set<nat>
  {
    set i: nat | i < |program| && i !in seen
  }

  /** The rest of a run from `s`, having executed the instructions `seen`:
      each instruction is executed at most once. */
  function Run(program: Program, s: State, seen: set<nat>): Result<Termination, Fault>
    decreases Unseen(program, seen)
  {
    if s.pc == |program| then Ok(Halt(s.acc))
    else if s.pc in seen then Ok(Loop(s.acc))
    else if s.pc > |program| then Err(OutOfBounds)
    else
      match Step(program, s)
      case Err(e) => Err(e)
      case Ok(t) =>
        assert s.pc in Unseen(program, seen) - Unseen(program, seen + {s.pc});
        Run(program, t, seen + {s.pc})
  }

  /** The outcome of running a program from its first instruction. */
  function Execution(program: Program): Result<Termination, Fault>
  {
    Run(program, State(0, 0), {})
  }

  method Execute(program: Program) returns (r: Result<Termination, Fault>)
    ensures r == Execution(program)
  {
    var acc := 0;
    var pc: nat := 0;
    var seen: set<nat> := {};
    while !(pc == |program| || pc in seen)
      invariant Run(program, State(pc, acc), seen) == Execution(program)
      decreases Unseen(program, seen)
    {
      if pc > |program| {
        return Err(OutOfBounds);
      }
      assert pc in Unseen(program, seen) - Unseen(program, seen + {pc});
      seen := seen + {pc};
      match program[pc]
      case Acc(arg) =>
        acc := acc + arg;
        pc := pc + 1;
      case Jmp(arg) =>
        var target := AddOffset(pc, arg);
        if target.Err? {
          return Err(target.error);
        }
        pc := target.value;
      case Nop(_) =>
        pc := pc + 1;
    }
    if pc == |program| {
      r := Ok(Halt(acc));
    } else {
      r := Ok(Loop(acc));
    }
  }

  // ---------------------------------------------------------------------
  // The run as a sequence of steps

  /** The state after `k` steps from `s`, without any record of what was
      executed. */
  function Steps(program: Program, s: State, k: nat): Result<State, Fault>
    decreases k
  {
    if k == 0 then Ok(s)
    else if s.pc >= |program| then Err(OutOfBounds)
    else
      match Step(program, s)
      case Err(e) => Err(e)
      case Ok(t) => Steps(program, t, k - 1)
  }

  /** A halting run really reaches the end of the program, with the
      accumulator it reports. */
  lemma {:induction false} RunHalts(program: Program, s: State, seen: set<nat>, acc: int)
    requires Run(program, s, seen) == Ok(Halt(acc))
    ensures exists k: nat :: Steps(program, s, k) == Ok(State(|program|, acc))
    decreases Unseen(program, seen)
  {
    if s.pc == |program| {
      assert Steps(program, s, 0) == Ok(State(|program|, acc));
    } else {
      var t := Step(program, s).value;
      assert s.pc in Unseen(program, seen) - Unseen(program, seen + {s.pc});
      RunHalts(program, t, seen + {s.pc}, acc);
      var k: nat :| Steps(program, t, k) == Ok(State(|program|, acc));
      assert Steps(program, s, k + 1) == Steps(program, t, k);
    }
  }

  /** State `k` of a run is at an instruction already executed: in `seen`
      or at an earlier step. */
  ghost predicate Repeats(program: Program, s: State, seen: set<nat>, k: nat, acc: int)
  {
    Steps(program, s, k).Ok? && Steps(program, s, k).value.acc == acc
    && var pc := Steps(program, s, k).value.pc;
       (pc in seen || exists j: nat :: j < k && Steps(program, s, j).Ok? && Steps(program, s, j).value.pc == pc)
  }

  /** A looping run really comes back to an instruction it has executed,
      with the accumulator it reports. */
  lemma {:induction false} RunLoops(program: Program, s: State, seen: set<nat>, acc: int)
    requires Run(program, s, seen) == Ok(Loop(acc))
    ensures exists k: nat :: Repeats(program, s, seen, k, acc)
    decreases Unseen(program, seen)
  {
    if s.pc in seen {
      assert Repeats(program, s, seen, 0, acc);
    } else {
      var t := Step(program, s).value;
      assert s.pc in Unseen(program, seen) - Unseen(program, seen + {s.pc});
      RunLoops(program, t, seen + {s.pc}, acc);
      var k: nat :| Repeats(program, t, seen + {s.pc}, k, acc);
      assert Steps(program, s, k + 1) == Steps(program, t, k);
      var pc := Steps(program, t, k).value.pc;
      if pc == s.pc {
        assert Steps(program, s, 0) == Ok(State(pc, s.acc));
      } else if pc !in seen {
        var j: nat :| j < k && Steps(program, t, j).Ok? && Steps(program, t, j).value.pc == pc;
        assert Steps(program, s, j + 1) == Steps(program, t, j);
      }
      assert Repeats(program, s, seen, k + 1, acc);
    }
  }

  /** What a run reports is what running the instructions one at a time
      does: a halt has reached the end, a loop has come back to an
      instruction already executed. */
  lemma ExecutionMeaning(program: Program)
    ensures Execution(program).Ok? && Execution(program).value.Halt? ==>
      exists k: nat :: Steps(program, State(0, 0), k) == Ok(State(|program|, Execution(program).value.acc))
    ensures Execution(program).Ok? && Execution(program).value.Loop? ==>
      exists k: nat :: Repeats(program, State(0, 0), {}, k, Execution(program).value.acc)
  {
    var r := Execution(program);
    if r.Ok? && r.value.Halt? {
      RunHalts(program, State(0, 0), {}, r.value.acc);
    } else if r.Ok? {
      RunLoops(program, State(0, 0), {}, r.value.acc);
    }
  }

  // ---------------------------------------------------------------------
  // Solutions

  /** The accumulator just before an instruction would repeat. */
  function SolvePart1(program: Program): (r: Result<int, SolveError>)
    ensures r.Ok? <==> Execution(program).Ok? && Execution(program).value.Loop?
    ensures r.Ok? ==> r.value == Execution(program).value.acc
  {
    match Execution(program)
    case Err(e) => Err(Aborted(e))
    case Ok(Loop(acc)) => Ok(acc)
    case Ok(Halt(_)) => Err(NoSolution)
  }

  /** A jmp becomes a nop and a nop a jmp; acc is left alone. */
  function Flip(i: Instruction): (r: Instruction)
    ensures r.arg == i.arg && r.Acc? == i.Acc?
    ensures r.Jmp? <==> i.Nop?
  {
    match i
    case Acc(arg) => Acc(arg)
    case Jmp(arg) => Nop(arg)
    case Nop(arg) => Jmp(arg)
  }

  lemma FlipTwice(i: Instruction)
    ensures Flip(Flip(i)) == i
  {
  }

  /** The outcome of the repairs tried from index `i` on: each jmp or nop in
      turn is flipped, and the first flipped program that halts gives the
      answer; a run that aborts ends the search. */
  function RepairFrom(program: Program, i: nat): Result<int, SolveError>
    requires i <= |program|
    decreases |program| - i
  {
    if i == |program| then Err(NoSolution)
    else if program[i].Acc? then RepairFrom(program, i + 1)
    else
      match Execution(program[i := Flip(program[i])])
      case Err(e) => Err(Aborted(e))
      case Ok(Halt(acc)) => Ok(acc)
      case Ok(Loop(_)) => RepairFrom(program, i + 1)
  }

  function Repair(program: Program): Result<int, SolveError>
  {
    RepairFrom(program, 0)
  }

  /** Flips each jmp or nop of its own copy of the program in place, runs
      it, and puts the instruction back when the run loops. */
  method SolvePart2(original: Program) returns (r: Result<int, SolveError>)
    ensures r == Repair(original)
  {
    var program := new Instruction[|original|](k requires 0 <= k < |original| => original[k]);
    for i := 0 to program.Length
      invariant program[..] == original
      invariant RepairFrom(original, i) == Repair(original)
    {
      match program[i]
      case Jmp(arg) =>
        program[i] := Nop(arg);
        var run := Execute(program[..]);
        if run.Ok? && run.value.Halt? {
          return Ok(run.value.acc);
        } else if run.Err? {
          return Err(Aborted(run.error));
        }
        program[i] := Jmp(arg);
      case Nop(arg) =>
        program[i] := Jmp(arg);
        var run := Execute(program[..]);
        if run.Ok? && run.value.Halt? {
          return Ok(run.value.acc);
        } else if run.Err? {
          return Err(Aborted(run.error));
        }
        program[i] := Nop(arg);
      case Acc(_) =>
    }
    r := Err(NoSolution);
  }

  /** A flip that can be tried at index `i`, and what running it gives. */
  ghost predicate Halts(program: Program, i: nat, acc: int)
  {
    i < |program| && !program[i].Acc? && Execution(program[i := Flip(program[i])]) == Ok(Halt(acc))
  }

  ghost predicate Loops(program: Program, i: nat)
  {
    i < |program| && !program[i].Acc? ==>
      Execution(program[i := Flip(program[i])]).Ok? && Execution(program[i := Flip(program[i])]).value.Loop?
  }

  /** Flip `k` is the first, from index `i` on, whose program halts. */
  ghost predicate FirstHalt(program: Program, i: nat, k: nat, acc: int)
  {
    i <= k && Halts(program, k, acc) && forall j :: i <= j < k ==> Loops(program, j)
  }

  /** The repair found is the first flip, in index order, whose program
      halts, every earlier flip having looped; and every halting first flip
      is found. */
  lemma {:induction false} RepairFromFinds(program: Program, i: nat, acc: int)
    requires i <= |program|
    ensures RepairFrom(program, i) == Ok(acc) <==> exists k: nat :: FirstHalt(program, i, k, acc)
    decreases |program| - i
  {
    if i < |program| {
      var next := i + 1;
      RepairFromFinds(program, next, acc);
      if Loops(program, i) && !Halts(program, i, acc) {
        assert RepairFrom(program, i) == RepairFrom(program, next);
        if exists k: nat :: FirstHalt(program, i, k, acc) {
          var k: nat :| FirstHalt(program, i, k, acc);
          assert FirstHalt(program, next, k, acc);
        }
        if exists k: nat :: FirstHalt(program, next, k, acc) {
          var k: nat :| FirstHalt(program, next, k, acc);
          assert FirstHalt(program, i, k, acc);
        }
      } else {
        if exists k: nat :: FirstHalt(program, i, k, acc) {
          var k: nat :| FirstHalt(program, i, k, acc);
          assert k == i;
        }
        if Halts(program, i, acc) {
          assert FirstHalt(program, i, i, acc);
        }
      }
    }
  }

  lemma RepairFinds(program: Program, acc: int)
    ensures Repair(program) == Ok(acc) <==> exists k: nat :: FirstHalt(program, 0, k, acc)
  {
    RepairFromFinds(program, 0, acc);
  }

  /** No repair is found exactly when every flip loops. */
  lemma {:induction false} RepairFromNone(program: Program, i: nat)
    requires i <= |program|
    ensures RepairFrom(program, i) == Err(NoSolution) <==> forall j :: i <= j < |program| ==> Loops(program, j)
    decreases |program| - i
  {
    if i < |program| {
      RepairFromNone(program, i + 1);
      if !Loops(program, i) {
        assert RepairFrom(program, i) != Err(NoSolution);
      }
    }
  }
}
