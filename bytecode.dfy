/**
 * The label-free instruction set that the assembler produces: control
 * transfers carry absolute indices into the program, never names, and there
 * is no label variant at all. Values are unbounded integers.
 */
module Bytecode {

  datatype Instruction =
    | Push(value: int)
    | Add
    | Subtract
    | Divide
    | Multiply
    | Print
    | Jump(target: nat)
    | Call(target: nat)
    | ConditionalJump(target: nat)
    | Return
    | Store(name: string)
    | Load(name: string)
    | Equal
    | LessThan
    | GreaterThan
    | Dup
    | Swap
    | Pop
    | Halt

  predicate IsTransfer(i: Instruction) {
    i.Jump? || i.Call? || i.ConditionalJump?
  }

  /** Every jump, call and conditional jump of `program` targets an index at most `bound`. */
  predicate TargetsWithin(program: seq<Instruction>, bound: nat) {
    forall k :: 0 <= k < |program| && IsTransfer(program[k]) ==> program[k].target <= bound
  }

  /** The variants that the assembler never emits: it has no IR form for them. */
  predicate HasNoIrForm(i: Instruction) {
    i.Store? || i.Load? || i.Equal? || i.LessThan? || i.GreaterThan? || i.Dup? || i.Swap? || i.Pop?
  }
}
