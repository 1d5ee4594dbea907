/**
 * The register machine of vm.rs as functions on a state value.
 *
 * The instruction set is the one vm.rs dispatches on (LoadImm, Add, ...,
 * Halt, with explicit register operands), which differs from the stack
 * instruction set that the assembler produces. Values are unbounded
 * integers; registers and addresses are natural numbers.
 */
module VmSemantics {
  import opened Wrappers

  datatype Instruction =
    | LoadImm(dest: nat, value: int)
    | Add(dest: nat, src1: nat, src2: nat)
    | Sub(dest: nat, src1: nat, src2: nat)
    | Mul(dest: nat, src1: nat, src2: nat)
    | Div(dest: nat, src1: nat, src2: nat)
    | Print(src: nat)
    | Jump(addr: nat)
    | Call(addr: nat)
    | ConditionalJump(cond: nat, target: nat)
    | Return
    | Store(src: nat, name: string)
    | Load(dest: nat, name: string)
    | Equal(dest: nat, src1: nat, src2: nat)
    | LessThan(dest: nat, src1: nat, src2: nat)
    | GreaterThan(dest: nat, src1: nat, src2: nat)
    | Not(dest: nat, src: nat)
    | Halt

  /** What a RegisterOutOfBounds error was raised for: its message in the source. */
  datatype RegisterFault =
    | InvalidIndex(index: nat)     // "invalid register index {index}"
    | VariableNotFound(name: string)  // "variable '{name}' not found"

  datatype VmError =
    | RegisterOutOfBounds(fault: RegisterFault)
    | ProgramCounterOutOfBounds
    | CallStackEmpty
    | DivisionByZero   // the source panics here instead of returning an error

  datatype Frame = Frame(returnAddress: nat)

  /** Everything `execute_instruction` reads or writes, apart from the program. */
  datatype State = State(pc: nat, registers: seq<int>, callStack: seq<Frame>, variables: map<string, int>)

  /** The state `VM::new` builds for `numRegisters` registers. */
  function Init(numRegisters: nat): State {
    State(0, seq(numRegisters, _ => 0), [], map[])
  }

  /** Rust's `/` on integers: the quotient rounded toward zero. */
  function TruncDiv(a: int, b: int): int
    requires b != 0
  {
    var q := (if a < 0 then -a else a) / (if b < 0 then -b else b);
    if (a < 0) == (b < 0) then q else -q
  }

  // ------------------------------------------------------------ helpers of vm.rs

  /** `get_register`. */
  function ReadRegister(s: State, index: nat): (r: Result<int, VmError>)
    ensures r.Ok? <==> index < |s.registers|
    ensures r.Ok? ==> r.value == s.registers[index]
    ensures r.Err? ==> r.error == RegisterOutOfBounds(InvalidIndex(index))
  {
    if index < |s.registers| then Ok(s.registers[index])
    else Err(RegisterOutOfBounds(InvalidIndex(index)))
  }

  /** `set_register`: only the addressed register changes, and the register count never does. */
  function WriteRegister(s: State, index: nat, value: int): (r: Result<State, VmError>)
    ensures r.Ok? <==> index < |s.registers|
    ensures r.Ok? ==> |r.value.registers| == |s.registers| && r.value.registers[index] == value
    ensures r.Ok? ==> forall i :: 0 <= i < |s.registers| && i != index ==> r.value.registers[i] == s.registers[i]
    ensures r.Ok? ==> r.value.pc == s.pc && r.value.callStack == s.callStack && r.value.variables == s.variables
    ensures r.Err? ==> r.error == RegisterOutOfBounds(InvalidIndex(index))
  {
    if index < |s.registers| then Ok(s.(registers := s.registers[index := value]))
    else Err(RegisterOutOfBounds(InvalidIndex(index)))
  }

  /** `jump`, for a program of `size` instructions. */
  function JumpTo(size: nat, s: State, addr: nat): Result<State, VmError> {
    if addr >= size then Err(ProgramCounterOutOfBounds) else Ok(s.(pc := addr))
  }

  /** `call`: remember where to come back to, then jump. */
  function CallTo(size: nat, s: State, addr: nat): Result<State, VmError> {
    if addr >= size then Err(ProgramCounterOutOfBounds)
    else Ok(s.(callStack := s.callStack + [Frame(s.pc)], pc := addr))
  }

  /** `ret`: resume at the return address of the newest frame. */
  function ReturnFrom(s: State): Result<State, VmError> {
    if s.callStack == [] then Err(CallStackEmpty)
    else
      var top := s.callStack[|s.callStack| - 1];
      Ok(s.(pc := top.returnAddress, callStack := s.callStack[..|s.callStack| - 1]))
  }

  /** 1 for true, 0 for false, as the comparison instructions write them. */
  function Flag(b: bool): int {
    if b then 1 else 0
  }

  /**
   * `execute_instruction` in a program of `size` instructions, on a state
   * whose `pc` already points past the instruction. Operands are read in
   * the order the source reads them, so the first failing read decides the
   * error.
   */
  function Exec(size: nat, s: State, inst: Instruction): Result<State, VmError> {
    match inst
    case LoadImm(dest, value) => WriteRegister(s, dest, value)
    case Add(dest, src1, src2) =>
      var v1 :- ReadRegister(s, src1);
      var v2 :- ReadRegister(s, src2);
      WriteRegister(s, dest, v1 + v2)
    case Sub(dest, src1, src2) =>
      var v1 :- ReadRegister(s, src1);
      var v2 :- ReadRegister(s, src2);
      WriteRegister(s, dest, v1 - v2)
    case Mul(dest, src1, src2) =>
      var v1 :- ReadRegister(s, src1);
      var v2 :- ReadRegister(s, src2);
      WriteRegister(s, dest, v1 * v2)
    case Div(dest, src1, src2) =>
      var v1 :- ReadRegister(s, src1);
      var v2 :- ReadRegister(s, src2);
      if v2 == 0 then Err(DivisionByZero) else WriteRegister(s, dest, TruncDiv(v1, v2))
    case Print(src) =>
      var _ :- ReadRegister(s, src);
      Ok(s)
    case Jump(addr) => JumpTo(size, s, addr)
    case Call(addr) => CallTo(size, s, addr)
    case ConditionalJump(cond, target) =>
      var condition :- ReadRegister(s, cond);
      if condition == 0 then JumpTo(size, s, target) else Ok(s)
    case Return => ReturnFrom(s)
    case Store(src, name) =>
      var value :- ReadRegister(s, src);
      Ok(s.(variables := s.variables[name := value]))
    case Load(dest, name) =>
      if name in s.variables then WriteRegister(s, dest, s.variables[name])
      else Err(RegisterOutOfBounds(VariableNotFound(name)))
    case Equal(dest, src1, src2) =>
      var v1 :- ReadRegister(s, src1);
      var v2 :- ReadRegister(s, src2);
      WriteRegister(s, dest, Flag(v1 == v2))
    case LessThan(dest, src1, src2) =>
      var v1 :- ReadRegister(s, src1);
      var v2 :- ReadRegister(s, src2);
      WriteRegister(s, dest, Flag(v1 < v2))
    case GreaterThan(dest, src1, src2) =>
      var v1 :- ReadRegister(s, src1);
      var v2 :- ReadRegister(s, src2);
      WriteRegister(s, dest, Flag(v1 > v2))
    case Not(dest, src) =>
      var v :- ReadRegister(s, src);
      WriteRegister(s, dest, Flag(v == 0))
    case Halt => Ok(s.(pc := size))
  }

  /** One turn of `run`'s loop: fetch, advance `pc`, execute. */
  function Step(program: seq<Instruction>, s: State): Result<State, VmError>
    requires s.pc < |program|
  {
    Exec(|program|, s.(pc := s.pc + 1), program[s.pc])
  }

  datatype Outcome = Finished | Failed(error: VmError) | OutOfFuel

  /** How a run ended, and the state it left behind. */
  datatype Execution = Execution(outcome: Outcome, state: State)

  /**
   * `run`, allowed at most `fuel` instructions: it stops with `Finished` once
   * `pc` is past the program and with the first error otherwise. A failing
   * instruction leaves the state it found, with `pc` already advanced.
   */
  function RunFrom(program: seq<Instruction>, s: State, fuel: nat): Execution
    decreases fuel
  {
    if s.pc >= |program| then Execution(Finished, s)
    else if fuel == 0 then Execution(OutOfFuel, s)
    else
      match Step(program, s)
      case Err(e) => Execution(Failed(e), s.(pc := s.pc + 1))
      case Ok(next) => RunFrom(program, next, fuel - 1)
  }

  /** One turn of the loop, as RunFrom takes it. */
  lemma RunFromStep(program: seq<Instruction>, s: State, fuel: nat)
    requires s.pc < |program| && fuel > 0
    ensures Step(program, s).Err? ==>
              RunFrom(program, s, fuel) == Execution(Failed(Step(program, s).error), s.(pc := s.pc + 1))
    ensures Step(program, s).Ok? ==> RunFrom(program, s, fuel) == RunFrom(program, Step(program, s).value, fuel - 1)
  {
  }

  /** The safety invariant of a run: `pc` and every return address lie in [0, |program|]. */
  predicate Safe(program: seq<Instruction>, s: State) {
    s.pc <= |program| && forall i :: 0 <= i < |s.callStack| ==> s.callStack[i].returnAddress <= |program|
  }

  // ------------------------------------------------------------ properties

  /** `/` on Rust integers rounds toward zero: the remainder is smaller than the divisor and has the dividend's sign. */
  lemma TruncDivRoundsTowardZero(a: int, b: int)
    requires b != 0
    ensures var r := a - TruncDiv(a, b) * b;
      (if r < 0 then -r else r) < (if b < 0 then -b else b) && (r == 0 || (r < 0 <==> a < 0))
  {
    var ma, mb := (if a < 0 then -a else a), (if b < 0 then -b else b);
    var q := ma / mb;
    assert ma == q * mb + ma % mb;
    if a < 0 && b < 0 {
      assert a - q * b == -(ma - q * mb);
    } else if a < 0 {
      assert a - (-q) * b == -(ma - q * mb);
    } else if b < 0 {
      assert a - (-q) * b == ma - q * mb;
    }
  }

  /** `new`: `pc` 0, `n` zeroed registers, no frames, no variables; that state is safe. */
  lemma InitIsSafe(program: seq<Instruction>, n: nat)
    ensures var s := Init(n);
      Safe(program, s) && s.pc == 0 && |s.registers| == n && s.callStack == [] && s.variables == map[]
      && forall i :: 0 <= i < n ==> s.registers[i] == 0
  {
  }

  /** Jump checks its target against the program before it moves `pc`. */
  lemma JumpSemantics(size: nat, s: State, addr: nat)
    ensures Exec(size, s, Jump(addr)).Err? <==> addr >= size
    ensures Exec(size, s, Jump(addr)).Err? ==> Exec(size, s, Jump(addr)).error == ProgramCounterOutOfBounds
    ensures Exec(size, s, Jump(addr)).Ok? ==> Exec(size, s, Jump(addr)).value == s.(pc := addr)
  {
  }

  /** Call pushes the address after the call (the advanced `pc`) and jumps; an out-of-range target changes nothing. */
  lemma CallSemantics(size: nat, s: State, addr: nat)
    ensures Exec(size, s, Call(addr)).Err? <==> addr >= size
    ensures Exec(size, s, Call(addr)).Err? ==> Exec(size, s, Call(addr)).error == ProgramCounterOutOfBounds
    ensures Exec(size, s, Call(addr)).Ok? ==>
              Exec(size, s, Call(addr)).value == s.(pc := addr, callStack := s.callStack + [Frame(s.pc)])
  {
  }

  /** Return pops the newest frame and resumes there; with no frame it fails with CallStackEmpty. */
  lemma ReturnSemantics(size: nat, s: State)
    ensures Exec(size, s, Return).Err? <==> s.callStack == []
    ensures Exec(size, s, Return).Err? ==> Exec(size, s, Return).error == CallStackEmpty
    ensures Exec(size, s, Return).Ok? ==>
              |s.callStack| > 0 && Exec(size, s, Return).value ==
              s.(pc := s.callStack[|s.callStack| - 1].returnAddress, callStack := s.callStack[..|s.callStack| - 1])
  {
  }

  /** A successful turn pushes one frame for a Call, pops one for a Return and leaves the call stack alone otherwise. */
  lemma StepCallStack(program: seq<Instruction>, s: State)
    requires s.pc < |program| && Step(program, s).Ok?
    ensures var t := Step(program, s).value;
      if program[s.pc].Call? then t.callStack == s.callStack + [Frame(s.pc + 1)]
      else if program[s.pc] == Return then
        |s.callStack| > 0 && t.callStack == s.callStack[..|s.callStack| - 1]
      else t.callStack == s.callStack
  {
  }

  /** `n` turns of `run`'s loop from `s` that all stay in the program and succeed. */
  predicate Succeeds(program: seq<Instruction>, s: State, n: nat)
    decreases n
  {
    n == 0 || (s.pc < |program| && Step(program, s).Ok? && Succeeds(program, Step(program, s).value, n - 1))
  }

  /** The state after `n` successful turns. */
  function StepsFrom(program: seq<Instruction>, s: State, n: nat): State
    requires Succeeds(program, s, n)
    decreases n
  {
    if n == 0 then s else StepsFrom(program, Step(program, s).value, n - 1)
  }

  /** Every state along `n` successful turns from `s` holds at least `depth` frames. */
  predicate StaysAbove(program: seq<Instruction>, s: State, n: nat, depth: nat)
    requires Succeeds(program, s, n)
    decreases n
  {
    |s.callStack| >= depth && (n > 0 ==> StaysAbove(program, Step(program, s).value, n - 1, depth))
  }

  /** The first of `n` successful turns, and the rest from the state it leaves. */
  lemma StepsFromUnfold(program: seq<Instruction>, s: State, n: nat)
    requires n > 0 && Succeeds(program, s, n)
    ensures s.pc < |program| && Step(program, s).Ok? && Succeeds(program, Step(program, s).value, n - 1)
    ensures StepsFrom(program, s, n) == StepsFrom(program, Step(program, s).value, n - 1)
  {
  }

  /** `n` successful turns use `n` units of fuel: the run goes on from where they end. */
  lemma {:induction false} RunFromSteps(program: seq<Instruction>, s: State, n: nat, fuel: nat)
    requires Succeeds(program, s, n)
    ensures RunFrom(program, s, fuel + n) == RunFrom(program, StepsFrom(program, s, n), fuel)
    decreases n
  {
    if n > 0 {
      StepsFromUnfold(program, s, n);
      RunFromStep(program, s, fuel + n);
      RunFromSteps(program, Step(program, s).value, n - 1, fuel);
    }
  }

  /**
   * Code that never returns below the frames it started on leaves them
   * untouched: the bottom `|base|` frames stay `base`.
   */
  lemma {:induction false} StepsKeepFramesBelow(program: seq<Instruction>, s: State, n: nat, base: seq<Frame>)
    requires Succeeds(program, s, n) && StaysAbove(program, s, n, |base|)
    requires s.callStack[..|base|] == base
    ensures var e := StepsFrom(program, s, n);
      |e.callStack| >= |base| && e.callStack[..|base|] == base
    decreases n
  {
    if n > 0 {
      var t := Step(program, s).value;
      StepCallStack(program, s);
      assert |t.callStack| >= |base|;
      PrefixKept(s.callStack, t.callStack, base);
      StepsKeepFramesBelow(program, t, n - 1, base);
    }
  }

  /** A stack that grows by one frame, loses its top one or stays, keeps a prefix it still covers. */
  lemma PrefixKept(before: seq<Frame>, after: seq<Frame>, base: seq<Frame>)
    requires |base| <= |before| && before[..|base|] == base && |after| >= |base|
    requires (exists f :: after == before + [f]) || (|before| > 0 && after == before[..|before| - 1]) || after == before
    ensures after[..|base|] == base
  {
    if |before| > 0 && after == before[..|before| - 1] {
      assert after[..|base|] == before[..|base|];
    } else if after != before {
      var f :| after == before + [f];
      assert after[..|base|] == before[..|base|];
    }
  }

  /**
   * A call whose callee runs `n` turns without returning below its own frame
   * and then reaches a Return at that frame resumes just after the call, with
   * the call stack as it was before the call.
   */
  lemma {:induction false} CallThenReturnAfter(program: seq<Instruction>, s: State, n: nat)
    requires s.pc < |program| && program[s.pc].Call? && Step(program, s).Ok?
    requires Succeeds(program, Step(program, s).value, n)
    requires StaysAbove(program, Step(program, s).value, n, |s.callStack| + 1)
    requires var e := StepsFrom(program, Step(program, s).value, n);
      |e.callStack| == |s.callStack| + 1 && e.pc < |program| && program[e.pc] == Return
    ensures var e := StepsFrom(program, Step(program, s).value, n);
      Step(program, e) == Ok(e.(pc := s.pc + 1, callStack := s.callStack))
  {
    var mid := Step(program, s).value;
    var base := s.callStack + [Frame(s.pc + 1)];
    StepCallStack(program, s);
    assert mid.callStack[..|base|] == base;
    StepsKeepFramesBelow(program, mid, n, base);
    var e := StepsFrom(program, mid, n);
    assert e.callStack == base;
    assert base[..|base| - 1] == s.callStack;
  }

  /** A call straight to a Return: the stack deepens by one, then the return resumes after the call with the stack as it was. */
  lemma CallThenReturn(program: seq<Instruction>, s: State)
    requires s.pc < |program| && program[s.pc].Call? && program[s.pc].addr < |program|
    requires program[program[s.pc].addr] == Return
    ensures Step(program, s).Ok?
    ensures var mid := Step(program, s).value;
      |mid.callStack| == |s.callStack| + 1 && Step(program, mid) == Ok(s.(pc := s.pc + 1))
  {
    CallSemantics(|program|, s.(pc := s.pc + 1), program[s.pc].addr);
    CallThenReturnAfter(program, s, 0);
  }

  /** A conditional jump is taken exactly when its register holds 0; otherwise execution falls through. */
  lemma ConditionalJumpSemantics(size: nat, s: State, cond: nat, target: nat)
    requires cond < |s.registers|
    ensures s.registers[cond] == 0 ==> Exec(size, s, ConditionalJump(cond, target)) == Exec(size, s, Jump(target))
    ensures s.registers[cond] != 0 ==> Exec(size, s, ConditionalJump(cond, target)) == Ok(s)
  {
  }

  /** A conditional jump on a register that does not exist fails however the jump would go. */
  lemma ConditionalJumpBadRegister(size: nat, s: State, cond: nat, target: nat)
    requires cond >= |s.registers|
    ensures Exec(size, s, ConditionalJump(cond, target)) == Err(RegisterOutOfBounds(InvalidIndex(cond)))
  {
  }

  predicate IsArithmetic(inst: Instruction) {
    inst.Add? || inst.Sub? || inst.Mul? || inst.Div?
  }

  /** The value an arithmetic instruction computes, first operand on the left. */
  function Arithmetic(inst: Instruction, v1: int, v2: int): int
    requires IsArithmetic(inst) && (inst.Div? ==> v2 != 0)
  {
    match inst
    case Add(_, _, _) => v1 + v2
    case Sub(_, _, _) => v1 - v2
    case Mul(_, _, _) => v1 * v2
    case Div(_, _, _) => TruncDiv(v1, v2)
  }

  /**
   * Add, Sub, Mul and Div compute `src1 op src2` into `dest` and touch
   * nothing else; they fail exactly when a register does not exist or a
   * divisor is 0, and the first failing operand decides the error.
   */
  lemma ArithmeticSemantics(size: nat, s: State, inst: Instruction)
    requires IsArithmetic(inst)
    ensures inst.src1 >= |s.registers| ==>
              Exec(size, s, inst) == Err(RegisterOutOfBounds(InvalidIndex(inst.src1)))
    ensures inst.src1 < |s.registers| <= inst.src2 ==>
              Exec(size, s, inst) == Err(RegisterOutOfBounds(InvalidIndex(inst.src2)))
    ensures inst.src1 < |s.registers| && inst.src2 < |s.registers| && inst.Div? && s.registers[inst.src2] == 0 ==>
              Exec(size, s, inst) == Err(DivisionByZero)
    ensures inst.src1 < |s.registers| && inst.src2 < |s.registers| && !(inst.Div? && s.registers[inst.src2] == 0) ==>
              Exec(size, s, inst) ==
              (if inst.dest < |s.registers|
               then Ok(s.(registers := s.registers[inst.dest := Arithmetic(inst, s.registers[inst.src1], s.registers[inst.src2])]))
               else Err(RegisterOutOfBounds(InvalidIndex(inst.dest))))
  {
  }

  predicate IsComparison(inst: Instruction) {
    inst.Equal? || inst.LessThan? || inst.GreaterThan?
  }

  /** The relation a comparison instruction tests, first operand on the left. */
  function Relation(inst: Instruction, v1: int, v2: int): bool
    requires IsComparison(inst)
  {
    match inst
    case Equal(_, _, _) => v1 == v2
    case LessThan(_, _, _) => v1 < v2
    case GreaterThan(_, _, _) => v1 > v2
  }

  /**
   * Equal, LessThan and GreaterThan read `src1` then `src2` (the first bad
   * index is the error), then write 1 into `dest` when the relation holds
   * between them and 0 when not, or fail if `dest` is out of range.
   */
  lemma ComparisonSemantics(size: nat, s: State, inst: Instruction)
    requires IsComparison(inst)
    ensures inst.src1 >= |s.registers| ==>
              Exec(size, s, inst) == Err(RegisterOutOfBounds(InvalidIndex(inst.src1)))
    ensures inst.src1 < |s.registers| <= inst.src2 ==>
              Exec(size, s, inst) == Err(RegisterOutOfBounds(InvalidIndex(inst.src2)))
    ensures inst.src1 < |s.registers| && inst.src2 < |s.registers| <= inst.dest ==>
              Exec(size, s, inst) == Err(RegisterOutOfBounds(InvalidIndex(inst.dest)))
    ensures inst.src1 < |s.registers| && inst.src2 < |s.registers| && inst.dest < |s.registers| ==>
      Exec(size, s, inst).Ok? &&
      var t := Exec(size, s, inst).value;
      var v1, v2 := s.registers[inst.src1], s.registers[inst.src2];
      t == s.(registers := t.registers)
      && |t.registers| == |s.registers|
      && (t.registers[inst.dest] == 0 || t.registers[inst.dest] == 1)
      && (t.registers[inst.dest] == 1 <==>
            (if inst.Equal? then v1 == v2 else if inst.LessThan? then v1 < v2 else v1 > v2))
      && forall i :: 0 <= i < |s.registers| && i != inst.dest ==> t.registers[i] == s.registers[i]
  {
  }

  /**
   * Not reads `src`, then writes 1 into `dest` for a zero value and 0 for any
   * other, or fails if `dest` is out of range.
   */
  lemma NotSemantics(size: nat, s: State, dest: nat, src: nat)
    ensures src >= |s.registers| ==>
              Exec(size, s, Not(dest, src)) == Err(RegisterOutOfBounds(InvalidIndex(src)))
    ensures src < |s.registers| <= dest ==>
              Exec(size, s, Not(dest, src)) == Err(RegisterOutOfBounds(InvalidIndex(dest)))
    ensures src < |s.registers| && dest < |s.registers| ==>
              Exec(size, s, Not(dest, src)) ==
              Ok(s.(registers := s.registers[dest := if s.registers[src] == 0 then 1 else 0]))
  {
  }

  /** Store reads `src` and binds the name to its value; nothing else changes. */
  lemma StoreSemantics(size: nat, s: State, src: nat, name: string)
    ensures src >= |s.registers| ==>
              Exec(size, s, Store(src, name)) == Err(RegisterOutOfBounds(InvalidIndex(src)))
    ensures src < |s.registers| ==>
              Exec(size, s, Store(src, name)) == Ok(s.(variables := s.variables[name := s.registers[src]]))
  {
  }

  /** Load of a bound name writes its value into `dest`, or fails naming `dest` when it is out of range. */
  lemma LoadSemantics(size: nat, s: State, dest: nat, name: string)
    ensures name in s.variables && dest < |s.registers| ==>
              Exec(size, s, Load(dest, name)) == Ok(s.(registers := s.registers[dest := s.variables[name]]))
    ensures name in s.variables && dest >= |s.registers| ==>
              Exec(size, s, Load(dest, name)) == Err(RegisterOutOfBounds(InvalidIndex(dest)))
  {
  }

  /** A Store followed by a Load of the same name copies the stored register into the loaded one. */
  lemma StoreThenLoad(size: nat, s: State, src: nat, dest: nat, name: string)
    requires src < |s.registers| && dest < |s.registers|
    ensures Exec(size, s, Store(src, name)).Ok?
    ensures var t := Exec(size, s, Store(src, name)).value;
      t == s.(variables := s.variables[name := s.registers[src]])
      && Exec(size, t, Load(dest, name)) == Ok(t.(registers := t.registers[dest := s.registers[src]]))
  {
    StoreSemantics(size, s, src, name);
    var t := s.(variables := s.variables[name := s.registers[src]]);
    LoadSemantics(size, t, dest, name);
  }

  /** Loading a name that was never stored fails, and the source reports it as a register error. */
  lemma LoadOfUnboundName(size: nat, s: State, dest: nat, name: string)
    requires name !in s.variables
    ensures Exec(size, s, Load(dest, name)) == Err(RegisterOutOfBounds(VariableNotFound(name)))
  {
  }

  /** Halt moves `pc` to the end of the program, so a run stops right after it. */
  lemma HaltStopsTheRun(program: seq<Instruction>, s: State, fuel: nat)
    requires s.pc < |program| && program[s.pc] == Halt && fuel > 0
    ensures RunFrom(program, s, fuel) == Execution(Finished, s.(pc := |program|))
  {
    RunFromStep(program, s, fuel);
  }

  /** One successful step keeps the state safe and the register count fixed. */
  lemma StepPreservesSafety(program: seq<Instruction>, s: State)
    requires Safe(program, s) && s.pc < |program|
    ensures Step(program, s).Ok? ==>
              Safe(program, Step(program, s).value) && |Step(program, s).value.registers| == |s.registers|
  {
    var t := s.(pc := s.pc + 1);
    match program[s.pc]
    case Call(addr) =>
      if addr < |program| {
        var u := Step(program, s).value;
        assert u.callStack == s.callStack + [Frame(s.pc + 1)];
      }
    case Return =>
      if s.callStack != [] {
        var u := Step(program, s).value;
        assert u.pc == s.callStack[|s.callStack| - 1].returnAddress;
      }
    case _ =>
  }

  /**
   * Throughout a run `pc` never passes the end of the program, every return
   * address stays within it, and the number of registers never changes.
   */
  lemma {:induction false} RunPreservesSafety(program: seq<Instruction>, s: State, fuel: nat)
    requires Safe(program, s)
    ensures Safe(program, RunFrom(program, s, fuel).state)
    ensures |RunFrom(program, s, fuel).state.registers| == |s.registers|
    decreases fuel
  {
    if s.pc < |program| && fuel > 0 {
      RunFromStep(program, s, fuel);
      StepPreservesSafety(program, s);
      if Step(program, s).Ok? {
        RunPreservesSafety(program, Step(program, s).value, fuel - 1);
      }
    }
  }

  /** A run that finishes does so with `pc` at the end of the program, never beyond it. */
  lemma {:induction false} FinishedRunEndsAtProgramEnd(program: seq<Instruction>, s: State, fuel: nat)
    requires Safe(program, s)
    requires RunFrom(program, s, fuel).outcome == Finished
    ensures RunFrom(program, s, fuel).state.pc == |program|
    decreases fuel
  {
    if s.pc < |program| && fuel > 0 {
      RunFromStep(program, s, fuel);
      StepPreservesSafety(program, s);
      if Step(program, s).Ok? {
        FinishedRunEndsAtProgramEnd(program, Step(program, s).value, fuel - 1);
      }
    }
  }

  /**
   * A run that fails stops at the instruction just before `pc`: executing it
   * in the state left behind gives exactly the reported error.
   */
  lemma {:induction false} FailedRunStopsAtFailingInstruction(program: seq<Instruction>, s: State, fuel: nat)
    requires RunFrom(program, s, fuel).outcome.Failed?
    ensures var t := RunFrom(program, s, fuel).state;
      0 < t.pc <= |program| && Step(program, t.(pc := t.pc - 1)) == Err(RunFrom(program, s, fuel).outcome.error)
    decreases fuel
  {
    RunFromStep(program, s, fuel);
    if Step(program, s).Ok? {
      FailedRunStopsAtFailingInstruction(program, Step(program, s).value, fuel - 1);
    } else {
      assert s.(pc := s.pc + 1).(pc := s.pc) == s;
    }
  }

  /** More fuel never changes a run that ended without running out of it. */
  lemma {:induction false} RunFuelIsOnlyABound(program: seq<Instruction>, s: State, fuel: nat, more: nat)
    requires fuel <= more && RunFrom(program, s, fuel).outcome != OutOfFuel
    ensures RunFrom(program, s, more) == RunFrom(program, s, fuel)
    decreases fuel
  {
    if s.pc < |program| {
      RunFromStep(program, s, fuel);
      RunFromStep(program, s, more);
      if Step(program, s).Ok? {
        RunFuelIsOnlyABound(program, Step(program, s).value, fuel - 1, more - 1);
      }
    }
  }
}
