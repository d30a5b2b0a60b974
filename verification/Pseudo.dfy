/** Pseudo operations: the stack code between the syntax tree and the byte commands. */
module Pseudo {
  import opened Words

  datatype PseudoOpCode =
    | Nop
    | Add | Subtract | Divide | Multiply | Mod | Negative
    | PrefixIncrement | PrefixDecrement | PostfixDecrement | PostfixIncrement
    | Exponentiate
    | BitOffsetRight | BitOffsetLeft
    | Greater | Less | GreaterEqual | LessEqual | Equal | NotEqual
    | And | Or | Not | BitAnd | BitOr | BitNot
    | Assign | AssignR
    | GetPointer | Dereference | GetByArgument
    | DeclareVariable
    | Use | UseConstant
    | Jump | JumpIf | JumpNIf | Label
    | PushFrame | PopFrame

  /** arg0: a variable, constant or label id. compound: the operation inside an assignment, Nop for a plain one. */
  datatype PseudoOp = PseudoOp(code: PseudoOpCode, arg0: Word, compound: PseudoOpCode)

  function Op(code: PseudoOpCode): PseudoOp {
    PseudoOp(code, 0, Nop)
  }

  /** Primitive types in the order of their conversion priority. */
  datatype Primitive = Int | UInt | Real

  function Rank(t: Primitive): nat {
    match t case Int => 0 case UInt => 1 case Real => 2
  }

  function CommonType(a: Primitive, b: Primitive): Primitive {
    if Rank(a) > Rank(b) then a else b
  }

  predicate IsArithmetic(op: PseudoOpCode) {
    op == Add || op == Subtract || op == Divide || op == Exponentiate || op == Multiply || op == Mod
  }

  predicate IsLogic(op: PseudoOpCode) {
    op == And || op == Or
  }

  predicate IsBitLogic(op: PseudoOpCode) {
    op == BitOr || op == BitAnd || op == BitOffsetLeft || op == BitOffsetRight
  }

  predicate IsComparison(op: PseudoOpCode) {
    op == Equal || op == NotEqual || op == Greater || op == Less || op == GreaterEqual || op == LessEqual
  }

  predicate IsBinary(op: PseudoOpCode) {
    IsArithmetic(op) || IsLogic(op) || IsBitLogic(op) || IsComparison(op)
  }
}
