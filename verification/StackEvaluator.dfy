/** The reference meaning of pseudo operations: a stack machine over typed operands and a byte memory. */
module StackEvaluator {
  import opened Words
  import opened ByteCode
  import opened Machine
  import opened Pseudo
  import opened CodegenSpec
  import B = ByteMachine

  /** What surrounds a translation: the layout it will be linked against, its module, its variables and constants. */
  datatype Context = Context(layout: Layout, space: Space, m: ModuleId, env: Env)

  /** An operand: a variable's place, a constant, or a computed value. Places and constants are read when consumed. */
  datatype Cell =
    | Place(arg: Arg, kind: Primitive, size: Word)
    | Literal(k: Word, kind: Primitive, size: Word)
    | Value(bits: Word, kind: Primitive)

  datatype EState = EState(stack: seq<Cell>, mem: Memory)

  datatype Result = Done(state: EState) | DivisionByZero | Stuck

  // ----- what a context must provide -----

  /** The operand denotes a place inside the stack area that fits a register. */
  predicate PlaceOk(ctx: Context, arg: Arg, size: Word) {
    B.IsPlace(ctx.layout, ctx.m, arg) && size <= 8
    && InInterval(ctx.space.stackStart, ctx.space.heapStart, B.PlaceAddress(ctx.layout, ctx.m, arg), size)
  }

  function VariableArg(v: Variable): Arg {
    if v.declaredHere then Arg(v.offset, MemoryAddress) else Arg(v.symbol, Symbol)
  }

  predicate IsBigConstant(c: ConstantInfo) {
    c.size > POINTER_SIZE || c.isString
  }

  predicate ConstantOk(ctx: Context, k: Word, size: Word) {
    && B.IsConstant(ctx.layout, Arg(k, Constant)) && k < |ctx.env.constants|
    && ctx.env.constants[k].size == size == |ctx.layout.constants[k]|
  }

  /** Variables lie in the stack area, constants are those of the layout, and no type is Real. */
  ghost predicate ContextOk(ctx: Context) {
    && SpaceOk(ctx.space) && ctx.env.general <= B.GENERAL_REGISTERS
    && (forall id :: id in ctx.env.vars ==>
          var v := ctx.env.vars[id]; v.kind != Real && PlaceOk(ctx, VariableArg(v), v.size))
    && (forall k: nat :: k < |ctx.env.constants| ==>
          k < TWO64 && ctx.env.constants[k].kind != Real && ConstantOk(ctx, k, ctx.env.constants[k].size))
  }

  predicate CellOk(ctx: Context, c: Cell) {
    c.kind != Real
    && match c
       case Place(arg, _, size) => PlaceOk(ctx, arg, size)
       case Literal(k, kind, size) => ConstantOk(ctx, k, size) && ctx.env.constants[k].kind == kind
       case Value(_, _) => true
  }

  ghost predicate StateOk(ctx: Context, s: EState) {
    ContextOk(ctx) && |s.mem| == ctx.space.end && forall k :: 0 <= k < |s.stack| ==> CellOk(ctx, s.stack[k])
  }

  // ----- reading and writing -----

  /** The value of an operand: a variable's bytes, zero-extended; a constant's bytes, or its address when it is big. */
  function Fetch(ctx: Context, mem: Memory, c: Cell): Word
    requires SpaceOk(ctx.space) && |mem| == ctx.space.end && CellOk(ctx, c)
  {
    match c
    case Place(arg, _, size) => ReadBytes(mem, B.PlaceAddress(ctx.layout, ctx.m, arg), size)
    case Literal(k, _, size) =>
      if IsBigConstant(ctx.env.constants[k]) then ctx.layout.constantAddresses[k]
      else ReadBytes(ctx.layout.constants[k], 0, size)
    case Value(bits, _) => bits
  }

  /** Storing a value keeps as many low bytes as the variable has. */
  function Stored(ctx: Context, mem: Memory, place: Cell, bits: Word): (mem': Memory)
    requires SpaceOk(ctx.space) && |mem| == ctx.space.end && place.Place? && CellOk(ctx, place)
    ensures |mem'| == |mem|
  {
    WriteBytes(mem, B.PlaceAddress(ctx.layout, ctx.m, place.arg), bits, place.size)
  }

  // ----- operators -----

  /** The machine operation of an arithmetic, logic or bit operator on integers of a common type. */
  function Meaning(op: PseudoOpCode, t: Primitive): Option<BinaryOp> {
    match op
    case Add => Some(if t == Int then AddInt else AddUInt)
    case Subtract => Some(if t == Int then SubInt else SubUInt)
    case Multiply => Some(if t == Int then MulInt else MulUInt)
    case Divide => Some(if t == Int then DivInt else DivUInt)
    case Mod => Some(if t == Int then ModInt else ModUInt)
    case And => Some(LogicAnd)
    case Or => Some(LogicOr)
    case BitAnd => Some(BitwiseAnd)
    case BitOr => Some(BitwiseOr)
    case BitOffsetLeft => Some(OffsetLeft)
    case BitOffsetRight => Some(OffsetRight)
    case _ => None
  }

  function RelationOf(op: PseudoOpCode): Relation
    requires IsComparison(op)
  {
    match op
    case Equal => Relation.Equal
    case NotEqual => Relation.NotEqual
    case Greater => Relation.Greater
    case Less => Relation.Less
    case GreaterEqual => Relation.GreaterEqual
    case LessEqual => Relation.LessEqual
  }

  /** Exponentiation has no machine operation. */
  predicate IsCovered(op: PseudoOpCode) {
    op != Exponentiate
  }

  /** The common type is unsigned as soon as one operand is; comparison and logic give an unsigned truth value. */
  function Apply(op: PseudoOpCode, a: Cell, b: Cell): Option<Cell>
    requires IsBinary(op) && IsCovered(op) && a.Value? && b.Value?
  {
    var t := if a.kind == UInt || b.kind == UInt then UInt else Int;
    if IsComparison(op) then Some(Value(Bool(Compare(RelationOf(op), t == Int, a.bits, b.bits)), UInt))
    else
      var bits :- EvalBinary(Meaning(op, t).value, a.bits, b.bits);
      Some(Value(bits, if IsArithmetic(op) then t else UInt))
  }

  function ApplyOnce(op: PseudoOpCode, a: Cell): Cell
    requires a.Value? && (op == Negative || op == BitNot)
  {
    Value(EvalUnary(if op == Negative then NegInt else BitwiseNot, a.bits), a.kind)
  }

  function Read(ctx: Context, mem: Memory, c: Cell): Cell
    requires SpaceOk(ctx.space) && |mem| == ctx.space.end && CellOk(ctx, c)
  {
    Value(Fetch(ctx, mem, c), c.kind)
  }

  function PushCell(s: EState, c: Cell): Result {
    Done(s.(stack := s.stack + [c]))
  }

  function Top(s: EState): Cell
    requires s.stack != []
  {
    s.stack[|s.stack| - 1]
  }

  function Second(s: EState): Cell
    requires |s.stack| >= 2
  {
    s.stack[|s.stack| - 2]
  }

  function Drop(s: EState, n: nat): EState
    requires n <= |s.stack|
  {
    s.(stack := s.stack[..|s.stack| - n])
  }

  function EvalBinaryOp(ctx: Context, s: EState, op: PseudoOpCode): Result
    requires StateOk(ctx, s) && IsBinary(op) && IsCovered(op)
  {
    if |s.stack| < 2 then Stuck
    else
      match Apply(op, Read(ctx, s.mem, Second(s)), Read(ctx, s.mem, Top(s)))
      case Some(v) => PushCell(Drop(s, 2), v)
      case None => DivisionByZero
  }

  function EvalUnaryOp(ctx: Context, s: EState, op: PseudoOpCode): Result
    requires StateOk(ctx, s) && (op == Negative || op == BitNot)
  {
    if s.stack == [] || (op == Negative && Top(s).kind == UInt) then Stuck
    else PushCell(Drop(s, 1), ApplyOnce(op, Read(ctx, s.mem, Top(s))))
  }

  function EvalOperator(ctx: Context, s: EState, op: PseudoOpCode): Result
    requires StateOk(ctx, s) && IsCovered(op)
  {
    if IsBinary(op) then EvalBinaryOp(ctx, s, op)
    else if op == Negative || op == BitNot then EvalUnaryOp(ctx, s, op)
    else Done(s)
  }

  /** x = y stores y; x op= y stores the result of op. AssignR leaves the target behind as the value of the assignment. */
  function EvalAssignment(ctx: Context, s: EState, op: PseudoOp): Result
    requires StateOk(ctx, s) && IsCovered(op.compound)
  {
    if |s.stack| < 2 || !Second(s).Place? then Stuck
    else
      var target := Second(s);
      var keep := if op.code == AssignR then [target] else [];
      if op.compound == Nop then
        Done(EState(Drop(s, 2).stack + keep, Stored(ctx, s.mem, target, Fetch(ctx, s.mem, Top(s)))))
      else
        match EvalOperator(ctx, s, op.compound)
        case Done(s') =>
          if s'.stack == [] || !CellOk(ctx, Top(s')) then Stuck
          else Done(EState(Drop(s', 1).stack + keep, Stored(ctx, s.mem, target, Fetch(ctx, s.mem, Top(s')))))
        case DivisionByZero => DivisionByZero
        case Stuck => Stuck
  }

  /** Operations that neither jump nor declare. */
  predicate Straight(op: PseudoOp) {
    op.code !in {Label, Jump, JumpIf, JumpNIf} && IsCovered(op.code) && IsCovered(op.compound)
  }

  function EvalOp(ctx: Context, s: EState, op: PseudoOp): Result
    requires StateOk(ctx, s) && Straight(op)
  {
    if op.code == Use then
      if op.arg0 in ctx.env.vars then
        var v := ctx.env.vars[op.arg0]; PushCell(s, Place(VariableArg(v), v.kind, v.size))
      else Stuck
    else if op.code == UseConstant then
      if op.arg0 < |ctx.env.constants| then
        var c := ctx.env.constants[op.arg0]; PushCell(s, Literal(op.arg0, c.kind, c.size))
      else Stuck
    else if op.code == Assign || op.code == AssignR then EvalAssignment(ctx, s, op)
    else EvalOperator(ctx, s, op.code)
  }

  lemma ApplyKind(op: PseudoOpCode, a: Cell, b: Cell)
    requires IsBinary(op) && IsCovered(op) && a.Value? && b.Value?
    ensures Apply(op, a, b).Some? ==> Apply(op, a, b).value.Value? && Apply(op, a, b).value.kind != Real
  {
    hide EvalBinary, Meaning, Compare, RelationOf;
  }

  lemma PushKeepsOk(ctx: Context, s: EState, n: nat, c: Cell)
    requires StateOk(ctx, s) && n <= |s.stack| && CellOk(ctx, c)
    ensures StateOk(ctx, PushCell(Drop(s, n), c).state)
  {
    hide ContextOk, CellOk;
  }

  lemma CellsOk(ctx: Context)
    requires ContextOk(ctx)
    ensures SpaceOk(ctx.space)
    ensures forall id :: id in ctx.env.vars ==>
              var v := ctx.env.vars[id]; CellOk(ctx, Place(VariableArg(v), v.kind, v.size))
    ensures forall k: Word :: k < |ctx.env.constants| ==>
              var c := ctx.env.constants[k]; CellOk(ctx, Literal(k, c.kind, c.size))
  {
  }

  lemma OperatorKeepsOk(ctx: Context, s: EState, op: PseudoOpCode)
    requires StateOk(ctx, s) && IsCovered(op)
    ensures var r := EvalOperator(ctx, s, op); r.Done? ==> StateOk(ctx, r.state) && r.state.mem == s.mem
  {
    hide ContextOk, Apply, IsBinary, Fetch;
    CellsOk(ctx);
    if IsBinary(op) && |s.stack| >= 2 {
      var a, b := Read(ctx, s.mem, Second(s)), Read(ctx, s.mem, Top(s));
      ApplyKind(op, a, b);
      if Apply(op, a, b).Some? {
        PushKeepsOk(ctx, s, 2, Apply(op, a, b).value);
      }
    } else if (op == Negative || op == BitNot) && s.stack != [] {
      PushKeepsOk(ctx, s, 1, ApplyOnce(op, Read(ctx, s.mem, Top(s))));
    }
  }

  lemma EvalKeepsOk(ctx: Context, s: EState, op: PseudoOp)
    requires StateOk(ctx, s) && Straight(op)
    ensures var r := EvalOp(ctx, s, op); r.Done? ==> StateOk(ctx, r.state)
  {
    hide ContextOk, EvalOperator;
    if op.code == Assign || op.code == AssignR {
      OperatorKeepsOk(ctx, s, op.compound);
    } else if op.code == Use {
      CellsOk(ctx);
    } else if op.code == UseConstant {
      CellsOk(ctx);
    } else {
      OperatorKeepsOk(ctx, s, op.code);
    }
  }

  function EvalAll(ctx: Context, s: EState, ops: seq<PseudoOp>): Result
    requires StateOk(ctx, s) && forall op :: op in ops ==> Straight(op)
    decreases |ops|
  {
    if ops == [] then Done(s)
    else
      EvalKeepsOk(ctx, s, ops[0]);
      match EvalOp(ctx, s, ops[0])
      case Done(s') => EvalAll(ctx, s', ops[1..])
      case DivisionByZero => DivisionByZero
      case Stuck => Stuck
  }
}
