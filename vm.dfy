/**
 * The register-based virtual machine of vm.rs as a class: a program
 * counter, a fixed number of registers updated in place, a call stack of
 * return addresses and a table of named variables. Each method is proved to
 * do exactly what the matching function of VmSemantics says.
 */
module Vm {
  import opened Wrappers
  import opened VmSemantics

  class VM {
    var pc: nat
    const registers: array<int>
    const program: seq<Instruction>
    var callStack: seq<Frame>
    var variables: map<string, int>

    /** The machine's state as a value. */
    ghost function Snapshot(): State
      reads this, registers
    {
      State(pc, registers[..], callStack, variables)
    }

    ghost predicate Valid()
      reads this, registers
    {
      Safe(program, Snapshot())
    }

    /** `VM::new`: `pc` 0, every register 0, no frames, no variables. */
    constructor (program: seq<Instruction>, numRegisters: nat)
      ensures this.program == program && fresh(registers)
      ensures Snapshot() == Init(numRegisters) && Valid()
    {
      this.program := program;
      registers := new int[numRegisters](_ => 0);
      pc := 0;
      callStack := [];
      variables := map[];
      new;
      assert registers[..] == seq(numRegisters, _ => 0);
    }

    /** `get_register`. */
    method GetRegister(index: nat) returns (r: Result<int, VmError>)
      ensures r == ReadRegister(Snapshot(), index)
    {
      if index < registers.Length {
        r := Ok(registers[index]);
      } else {
        r := Err(RegisterOutOfBounds(InvalidIndex(index)));
      }
    }

    /** `set_register`: writes the one register in place, or fails and changes nothing. */
    method SetRegister(index: nat, value: int) returns (r: Result<(), VmError>)
      modifies registers
      ensures r.Ok? ==> WriteRegister(old(Snapshot()), index, value) == Ok(Snapshot())
      ensures r.Err? ==> WriteRegister(old(Snapshot()), index, value) == Err(r.error)
      ensures r.Err? ==> Snapshot() == old(Snapshot())
    {
      if index < registers.Length {
        registers[index] := value;
        r := Ok(());
      } else {
        r := Err(RegisterOutOfBounds(InvalidIndex(index)));
      }
    }

    /** `jump`. */
    method Jump(addr: nat) returns (r: Result<(), VmError>)
      modifies this
      ensures r.Ok? ==> JumpTo(|program|, old(Snapshot()), addr) == Ok(Snapshot())
      ensures r.Err? ==> JumpTo(|program|, old(Snapshot()), addr) == Err(r.error)
      ensures r.Err? ==> Snapshot() == old(Snapshot())
    {
      if addr >= |program| {
        return Err(ProgramCounterOutOfBounds);
      }
      pc := addr;
      r := Ok(());
    }

    /** `call`. */
    method Call(addr: nat) returns (r: Result<(), VmError>)
      modifies this
      ensures r.Ok? ==> CallTo(|program|, old(Snapshot()), addr) == Ok(Snapshot())
      ensures r.Err? ==> CallTo(|program|, old(Snapshot()), addr) == Err(r.error)
      ensures r.Err? ==> Snapshot() == old(Snapshot())
    {
      if addr >= |program| {
        return Err(ProgramCounterOutOfBounds);
      }
      callStack := callStack + [Frame(pc)];
      pc := addr;
      r := Ok(());
    }

    /** `ret`. */
    method Ret() returns (r: Result<(), VmError>)
      modifies this
      ensures r.Ok? ==> ReturnFrom(old(Snapshot())) == Ok(Snapshot())
      ensures r.Err? ==> ReturnFrom(old(Snapshot())) == Err(r.error)
      ensures r.Err? ==> Snapshot() == old(Snapshot())
    {
      if callStack == [] {
        return Err(CallStackEmpty);
      }
      var frame := callStack[|callStack| - 1];
      callStack := callStack[..|callStack| - 1];
      pc := frame.returnAddress;
      r := Ok(());
    }

    /** The arms of `execute_instruction` for Add, Sub, Mul and Div. */
    method ExecuteArithmetic(inst: Instruction) returns (r: Result<(), VmError>)
      requires IsArithmetic(inst)
      modifies registers
      ensures r.Ok? ==> Exec(|program|, old(Snapshot()), inst) == Ok(Snapshot())
      ensures r.Err? ==> Exec(|program|, old(Snapshot()), inst) == Err(r.error)
      ensures r.Err? ==> Snapshot() == old(Snapshot())
    {
      var v1 :- GetRegister(inst.src1);
      var v2 :- GetRegister(inst.src2);
      if inst.Div? && v2 == 0 {
        return Err(DivisionByZero);
      }
      r := SetRegister(inst.dest, Arithmetic(inst, v1, v2));
    }

    /** The arms of `execute_instruction` for Equal, LessThan and GreaterThan. */
    method ExecuteComparison(inst: Instruction) returns (r: Result<(), VmError>)
      requires IsComparison(inst)
      modifies registers
      ensures r.Ok? ==> Exec(|program|, old(Snapshot()), inst) == Ok(Snapshot())
      ensures r.Err? ==> Exec(|program|, old(Snapshot()), inst) == Err(r.error)
      ensures r.Err? ==> Snapshot() == old(Snapshot())
    {
      var v1 :- GetRegister(inst.src1);
      var v2 :- GetRegister(inst.src2);
      r := SetRegister(inst.dest, if Relation(inst, v1, v2) then 1 else 0);
    }

    /** `execute_instruction`: every instruction either succeeds or fails before changing anything. */
    method ExecuteInstruction(inst: Instruction) returns (r: Result<(), VmError>)
      modifies this, registers
      ensures r.Ok? ==> Exec(|program|, old(Snapshot()), inst) == Ok(Snapshot())
      ensures r.Err? ==> Exec(|program|, old(Snapshot()), inst) == Err(r.error)
      ensures r.Err? ==> Snapshot() == old(Snapshot())
    {
      match inst {
        case LoadImm(dest, value) =>
          r := SetRegister(dest, value);
        case Add(_, _, _) | Sub(_, _, _) | Mul(_, _, _) | Div(_, _, _) =>
          r := ExecuteArithmetic(inst);
        case Print(src) =>
          var value :- GetRegister(src);
          r := Ok(());
        case Jump(addr) =>
          r := this.Jump(addr);
        case Call(addr) =>
          r := this.Call(addr);
        case ConditionalJump(cond, target) =>
          var condition :- GetRegister(cond);
          if condition == 0 {
            r := this.Jump(target);
          } else {
            r := Ok(());
          }
        case Return =>
          r := Ret();
        case Store(src, name) =>
          var value :- GetRegister(src);
          variables := variables[name := value];
          r := Ok(());
        case Load(dest, name) =>
          if name !in variables {
            return Err(RegisterOutOfBounds(VariableNotFound(name)));
          }
          r := SetRegister(dest, variables[name]);
        case Equal(_, _, _) | LessThan(_, _, _) | GreaterThan(_, _, _) =>
          r := ExecuteComparison(inst);
        case Not(dest, src) =>
          var v :- GetRegister(src);
          r := SetRegister(dest, if v == 0 then 1 else 0);
        case Halt =>
          pc := |program|;
          r := Ok(());
      }
    }

    /**
     * One turn of `run`'s loop: fetch the instruction at `pc`, advance `pc`,
     * execute. On failure `pc` stays advanced and nothing else changes.
     */
    method FetchExecute() returns (r: Result<(), VmError>)
      requires pc < |program|
      modifies this, registers
      ensures r.Ok? ==> Step(program, old(Snapshot())) == Ok(Snapshot())
      ensures r.Err? ==> Step(program, old(Snapshot())) == Err(r.error)
      ensures r.Err? ==> Snapshot() == old(Snapshot()).(pc := old(pc) + 1)
      ensures old(Valid()) ==> Valid()
    {
      ghost var before := Snapshot();
      var inst := program[pc];
      pc := pc + 1;
      assert Snapshot() == before.(pc := before.pc + 1);
      r := ExecuteInstruction(inst);
      if Safe(program, before) {
        StepPreservesSafety(program, before);
      }
    }

    /**
     * `run`, allowed at most `fuel` instructions: fetch, advance `pc`,
     * execute, and stop at the first error.
     */
    method Run(fuel: nat) returns (outcome: Outcome)
      modifies this, registers
      ensures RunFrom(program, old(Snapshot()), fuel) == Execution(outcome, Snapshot())
      ensures old(Valid()) ==> Valid()
    {
      var remaining := fuel;
      while pc < |program|
        invariant RunFrom(program, old(Snapshot()), fuel) == RunFrom(program, Snapshot(), remaining)
        invariant old(Valid()) ==> Valid()
        decreases remaining
      {
        if remaining == 0 {
          return OutOfFuel;
        }
        RunFromStep(program, Snapshot(), remaining);
        var result := FetchExecute();
        if result.Err? {
          return Failed(result.error);
        }
        remaining := remaining - 1;
      }
      outcome := Finished;
    }
  }
}
