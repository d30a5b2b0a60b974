/** What the code generator makes of each pseudo operation: operand frames, used registers and emitted commands. */
module CodegenSpec {
  import opened Words
  import opened ByteCode
  import opened Pseudo
  import opened Registers

  const POINTER_SIZE := 8
  const LOGIC_RESULT_SIZE := 1

  /** Where an operand is: loaded into a register, or not loaded yet. */
  datatype Holder = InRegister | PointerInRegister | StaticAddress | ConstantRef | SymbolRef

  /** dtype, dsize: of the value; stype, ssize: of the place it came from. typed: a type id is known. */
  datatype Frame = Frame(holder: Holder, data: Word, dtype: Primitive, dsize: Word, stype: Primitive, ssize: Word, typed: bool)

  /** A variable: known by its offset when declared in this module, by its symbol otherwise. */
  datatype Variable = Variable(kind: Primitive, size: Word, declaredHere: bool, offset: Word, symbol: Word)

  datatype ConstantInfo = ConstantInfo(kind: Primitive, size: Word, isString: bool)

  datatype Env = Env(general: nat, vars: map<Word, Variable>, constants: seq<ConstantInfo>)

  datatype GState = GState(stack: seq<Frame>, used: set<nat>, code: seq<Command>)

  predicate Loaded(f: Frame) {
    f.holder == InRegister || f.holder == PointerInRegister
  }

  // ----- commands -----

  function Reg(r: Word): Arg {
    Arg(r, Register)
  }

  function Number(n: Word): Arg {
    Arg(n, Immediate)
  }

  /** A static place, or the symbol that stands for it until linking. */
  function PlaceArg(f: Frame): Arg {
    Arg(f.data, if f.holder == SymbolRef then Symbol else MemoryAddress)
  }

  function UnhandledSymbolFlag(f: Frame): Bits32 {
    if f.holder == SymbolRef then 1 else 0
  }

  function LoadPlace(f: Frame, r: Word): Command {
    Command(LOAD_STATIC, PlaceArg(f), Reg(r), Number(f.dsize), UnhandledSymbolFlag(f), 0)
  }

  function StorePlace(f: Frame, r: Word): Command {
    Command(STORE_STATIC, PlaceArg(f), Reg(r), Number(f.ssize), UnhandledSymbolFlag(f), 0)
  }

  function LoadConstant(f: Frame, r: Word): Command {
    Cmd(LOAD_CONST_STATIC, Arg(f.data, Constant), Reg(r), Number(f.dsize))
  }

  function ConstantAddress(f: Frame, r: Word): Command {
    Cmd(LEA_CONST, Arg(f.data, Constant), Reg(r), NoArg())
  }

  function Operate(code: ByteOpCode, left: Word, right: Word): Command {
    Cmd(code, Reg(left), Reg(left), Reg(right))
  }

  function OperateOnce(code: ByteOpCode, r: Word): Command {
    Cmd(code, Reg(r), Reg(r), NoArg())
  }

  /** The command that converts a register, none when the types agree. */
  function Conversion(from: Primitive, to: Primitive, r: Word): seq<Command> {
    if from == to then []
    else
      var code := match (from, to)
        case (UInt, Real) => TC_UTR
        case (Int, Real) => TC_ITR
        case (UInt, Int) => TC_UTI
        case (Real, Int) => TC_RTI
        case (Int, UInt) => TC_ITU
        case (_, _) => TC_RTU;
      [Cmd(code, Reg(r), NoArg(), NoArg())]
  }

  function ArithmeticCode(op: PseudoOpCode, t: Primitive): ByteOpCode {
    match (t, op)
    case (Int, Add) => ADDI case (Int, Subtract) => SUBI case (Int, Multiply) => MULI case (Int, Divide) => DIVI
    case (Int, Mod) => MODI case (Int, Negative) => NEGI case (Int, Exponentiate) => EXPI
    case (UInt, Add) => ADDU case (UInt, Subtract) => SUBU case (UInt, Multiply) => MULU case (UInt, Divide) => DIVU
    case (UInt, Mod) => MODU case (UInt, Exponentiate) => EXPU
    case (Real, Add) => ADDR case (Real, Subtract) => SUBR case (Real, Multiply) => MULR case (Real, Divide) => DIVR
    case (Real, Negative) => NEGR case (Real, Exponentiate) => EXPR
    case _ => NOP
  }

  function LogicCode(op: PseudoOpCode, t: Primitive): ByteOpCode {
    match op
    case And => AND
    case Or => OR
    case Not => NOT
    case BitOr => BIT_OR
    case BitNot => BIT_NOT
    case BitAnd => BIT_AND
    case BitOffsetLeft => BIT_OFFSET_LEFT
    case BitOffsetRight => BIT_OFFSET_RIGHT
    case Equal => (match t case Int => EQUALI case UInt => EQUALU case Real => EQUALR)
    case NotEqual => (match t case Int => NOT_EQUALI case UInt => NOT_EQUALU case Real => NOT_EQUALR)
    case Greater => (match t case Int => GREATERI case UInt => GREATERU case Real => GREATERR)
    case Less => (match t case Int => LESSI case UInt => LESSU case Real => LESSR)
    case GreaterEqual => (match t case Int => EGREATERI case UInt => EGREATERU case Real => EGREATERR)
    case LessEqual => (match t case Int => ELESSI case UInt => ELESSU case Real => ELESSR)
    case _ => NOP
  }

  // ----- loading -----

  /** A constant that does not fit a register is represented by its address. */
  predicate IsBig(env: Env, f: Frame) {
    f.dsize > POINTER_SIZE || (f.data < |env.constants| && env.constants[f.data].isString)
  }

  function LoadCommand(env: Env, f: Frame, r: Word): Command {
    if f.holder != ConstantRef then LoadPlace(f, r)
    else if IsBig(env, f) then ConstantAddress(f, r)
    else LoadConstant(f, r)
  }

  function LoadedFrame(env: Env, f: Frame, r: Word): Frame {
    if f.holder != ConstantRef then f.(holder := InRegister, data := r, dtype := f.stype)
    else if IsBig(env, f) then f.(holder := PointerInRegister, data := r, dsize := POINTER_SIZE)
    else f.(holder := InRegister, data := r)
  }

  datatype Operand = Operand(frame: Frame, rest: GState)

  /** Pops an operand, loading it into the lowest free register unless it is in one. None: an error is reported. */
  function LoadOperand(env: Env, g: GState): (r: Option<Operand>)
    requires env.general < TWO64
    ensures r.Some? ==> g.stack != [] && r.value.rest.stack == g.stack[..|g.stack| - 1] && Loaded(r.value.frame)
  {
    if g.stack == [] then None
    else
      var f, rest := g.stack[|g.stack| - 1], g.(stack := g.stack[..|g.stack| - 1]);
      if Loaded(f) then Some(Operand(f, rest))
      else
        match LowestFree(g.used, env.general)
        case None => None
        case Some(r) =>
          if f.holder != ConstantRef && f.dsize > POINTER_SIZE then None
          else Some(Operand(LoadedFrame(env, f, r),
                            rest.(used := g.used + {r}, code := g.code + [LoadCommand(env, f, r)])))
  }

  // ----- operators -----

  function Push(g: GState, f: Frame): GState {
    g.(stack := g.stack + [f])
  }

  function Free(g: GState, r: Word): GState {
    g.(used := g.used - {r})
  }

  function Put(g: GState, code: seq<Command>): GState {
    g.(code := g.code + code)
  }

  function Plain(r: Word, t: Primitive, size: Word): Frame {
    Frame(InRegister, r, t, size, t, size, false)
  }

  /** The right operand is converted unless the left one has to be. */
  predicate ConvertsLeft(left: Frame, right: Frame) {
    left.dtype != CommonType(left.dtype, right.dtype)
  }

  function ConversionOf(left: Frame, right: Frame): seq<Command> {
    var t := CommonType(left.dtype, right.dtype);
    if ConvertsLeft(left, right) then Conversion(left.dtype, t, left.data) else Conversion(right.dtype, t, right.data)
  }

  function ConvertedRegister(left: Frame, right: Frame): Word {
    if ConvertsLeft(left, right) then left.data else right.data
  }

  /** The frame of an arithmetic result: the left register with the common type and the size of the converted operand. */
  function ConvertedFrame(left: Frame, right: Frame): Frame {
    var t := CommonType(left.dtype, right.dtype);
    if ConvertedRegister(left, right) == left.data
    then Frame(left.holder, left.data, t, left.dsize, right.stype, right.ssize, right.typed)
    else Frame(left.holder, left.data, t, right.dsize, left.stype, left.ssize, left.typed)
  }

  /** The commands and the result frame of a binary operator on loaded operands. None: an error is reported. */
  function Combine(op: PseudoOpCode, left: Frame, right: Frame): Option<(seq<Command>, Frame)> {
    var t := CommonType(left.dtype, right.dtype);
    if IsArithmetic(op) then
      if op == Mod && (left.dtype == Real || right.dtype == Real) then None
      else if left.holder == PointerInRegister && left.typed && op != Mod then None
      else Some((ConversionOf(left, right) + [Operate(ArithmeticCode(op, t), left.data, right.data)],
                 ConvertedFrame(left, right)))
    else if IsLogic(op) then
      Some(([Operate(LogicCode(op, UInt), left.data, right.data)], Plain(left.data, UInt, LOGIC_RESULT_SIZE)))
    else if IsBitLogic(op) then
      if left.dtype == Real || right.dtype == Real then None
      else Some(([Operate(LogicCode(op, UInt), left.data, right.data)], Plain(left.data, UInt, left.dsize)))
    else
      Some((ConversionOf(left, right) + [Operate(LogicCode(op, t), left.data, right.data)],
            Plain(left.data, UInt, LOGIC_RESULT_SIZE)))
  }

  datatype Operands = Operands(left: Frame, right: Frame, rest: GState)

  /** Two operands, the right one loaded first. */
  function LoadBoth(env: Env, g: GState): Option<Operands>
    requires env.general < TWO64
  {
    if |g.stack| < 2 then None
    else
      var right :- LoadOperand(env, g);
      var left :- LoadOperand(env, right.rest);
      Some(Operands(left.frame, right.frame, left.rest))
  }

  /** The right operand's register is freed, the left one's holds the result. */
  function Binary(env: Env, g: GState, op: PseudoOpCode): Option<GState>
    requires env.general < TWO64
  {
    var x :- LoadBoth(env, g);
    var done :- Combine(op, x.left, x.right);
    Some(Push(Free(Put(x.rest, done.0), x.right.data), done.1))
  }

  function Unary(env: Env, g: GState, op: PseudoOpCode): Option<GState>
    requires env.general < TWO64
  {
    var x :- LoadOperand(env, g);
    if op == Negative && x.frame.dtype == UInt then None
    else
      var code := if op == Negative then ArithmeticCode(op, x.frame.dtype) else LogicCode(op, x.frame.dtype);
      Some(Push(Put(x.rest, [OperateOnce(code, x.frame.data)]), x.frame))
  }

  /** Arithmetic, logic and comparison; Not and the increments produce nothing. */
  function Operator(env: Env, g: GState, op: PseudoOpCode): Option<GState>
    requires env.general < TWO64
  {
    if IsBinary(op) then Binary(env, g, op)
    else if op == Negative || op == BitNot then Unary(env, g, op)
    else Some(g)
  }

  // ----- assignment -----

  /** Converts and stores a loaded value; a plain assignment frees its register, AssignR keeps it. */
  function StoreTo(g: GState, left: Frame, right: Frame, keeps: bool): Option<GState> {
    if left.holder != StaticAddress && left.holder != SymbolRef then None
    else
      var stored := Put(g, Conversion(right.dtype, left.dtype, right.data) + [StorePlace(left, right.data)]);
      Some(if keeps then stored else Free(stored, right.data))
  }

  /** x = y keeps the target only for AssignR; x op= y loads the target as the left operand of op first. */
  function Assignment(env: Env, g: GState, op: PseudoOp): Option<GState>
    requires env.general < TWO64
  {
    if |g.stack| < 2 then None
    else
      var right :- LoadOperand(env, g);
      var left := right.rest.stack[|right.rest.stack| - 1];
      if op.compound == Nop then
        var stored :- StoreTo(right.rest, left, right.frame, op.code == AssignR);
        Some(if op.code == AssignR then stored else stored.(stack := stored.stack[..|stored.stack| - 1]))
      else
        var computed :- Operator(env, Push(right.rest, right.frame), op.compound);
        var result :- LoadOperand(env, computed);
        StoreTo(if op.code == AssignR then Push(result.rest, left) else result.rest, left, result.frame, op.code == AssignR)
  }

  // ----- operands and jumps -----

  function UseFrame(v: Variable): Frame {
    if v.declaredHere then Frame(StaticAddress, v.offset, v.kind, v.size, v.kind, v.size, true)
    else Frame(SymbolRef, v.symbol, v.kind, v.size, v.kind, v.size, true)
  }

  function ConstantFrame(k: Word, c: ConstantInfo): Frame {
    Frame(ConstantRef, k, c.kind, c.size, c.kind, c.size, false)
  }

  function ConditionalJump(env: Env, g: GState, code: ByteOpCode, id: Word): Option<GState>
    requires env.general < TWO64
  {
    var condition :- LoadOperand(env, g);
    Some(Put(condition.rest, [Cmd(code, Number(id), Reg(condition.frame.data), NoArg())]))
  }

  /** One pseudo operation. None: an error is reported. */
  function EmitOp(env: Env, g: GState, op: PseudoOp): Option<GState>
    requires env.general < TWO64
  {
    match op.code
    case Use => if op.arg0 in env.vars then Some(Push(g, UseFrame(env.vars[op.arg0]))) else None
    case UseConstant =>
      if op.arg0 < |env.constants| then Some(Push(g, ConstantFrame(op.arg0, env.constants[op.arg0]))) else None
    case Assign => Assignment(env, g, op)
    case AssignR => Assignment(env, g, op)
    case Label => Some(Put(g, [Cmd(JMP_LABEL, Number(op.arg0), NoArg(), NoArg())]))
    case Jump => Some(Put(g, [Cmd(JMP, Number(op.arg0), NoArg(), NoArg())]))
    case JumpIf => ConditionalJump(env, g, JMPCV, op.arg0)
    case JumpNIf => ConditionalJump(env, g, JMPCNV, op.arg0)
    case _ => Operator(env, g, op.code)
  }

  function EmitAll(env: Env, g: GState, ops: seq<PseudoOp>): Option<GState>
    requires env.general < TWO64
    decreases |ops|
  {
    if ops == [] then Some(g)
    else
      var g' :- EmitOp(env, g, ops[0]);
      EmitAll(env, g', ops[1..])
  }

  lemma EmitLast(env: Env, g: GState, op: PseudoOp)
    requires env.general < TWO64
    ensures EmitAll(env, g, [op]) == EmitOp(env, g, op)
  {
    hide EmitOp;
    var r := EmitOp(env, g, op);
    assert [op][1..] == [];
    if r.Some? {
      assert EmitAll(env, r.value, []) == r;
    }
  }

  lemma {:induction false} EmitAllAppend(env: Env, g: GState, a: seq<PseudoOp>, b: seq<PseudoOp>)
    requires env.general < TWO64
    ensures EmitAll(env, g, a + b) == match EmitAll(env, g, a) case Some(g') => EmitAll(env, g', b) case None => None
    decreases |a|
  {
    hide EmitOp;
    if a == [] {
      assert a + b == b;
    } else {
      assert (a + b)[0] == a[0] && (a + b)[1..] == a[1..] + b;
      if EmitOp(env, g, a[0]).Some? {
        EmitAllAppend(env, EmitOp(env, g, a[0]).value, a[1..], b);
      }
    }
  }
}
