/** The virtual machine: flat code, 128 registers, a flags register and a byte-addressed memory. */
module VM {
  import opened Words
  import opened ByteCode
  import opened Machine

  const TOTAL_REGISTERS := 128
  const SP := 120
  const FP := 121
  const A0 := 124

  datatype VMOpCode =
    | NOP
    | ADD_RRR_REAL | SUB_RRR_REAL | DIV_RRR_REAL | MUL_RRR_REAL | NEG_RR_REAL
    | ADD_RRR_INTEGER | SUB_RRR_INTEGER | DIV_RRR_INTEGER | MUL_RRR_INTEGER | NEG_RR_INTEGER | MOD_RRR_INTEGER
    | ADD_RRR_UNSIGNED | SUB_RRR_UNSIGNED | DIV_RRR_UNSIGNED | MUL_RRR_UNSIGNED | MOD_RRR_UNSIGNED
    | AND_RRR | OR_RRR | NOT_RR | BIT_OR_RRR | BIT_NOT_RR | BIT_AND_RRR
    | BIT_OFFSET_LEFT_RRR | BIT_OFFSET_RIGHT_RRR
    | CMP_RR_INTEGER | CMP_RR_UNSIGNED | CMP_RR_REAL | GET_FLAG
    | MOV_RR | MOV_RI
    | LOAD_ABSOLUTE | LOAD_LOCAL | STORE_LOCAL | LOAD_BY_ADDRESS | STORE_BY_ADDRESS
    | ALLOCATE_MEMORY | FREE_MEMORY | STATIC_COPY | DYNAMIC_COPY
    | JMP | JMP_CV | JMP_CNV | VM_CALL
    | TC_ITR_R | TC_RTI_R | TC_UTR_R | TC_UTI_R | TC_RTU_R | TC_ITU_R

  datatype VMOp = VMOp(code: VMOpCode, arg0: Word, arg1: Word, arg2: Word)

  // Flag numbers, as GET_FLAG takes them.
  const FLAG_NONE: Word := 0
  const FLAG_ZERO: Word := 1
  const FLAG_GREATER: Word := 2
  const FLAG_LESS: Word := 4

  /** The bits of the flags register. */
  datatype Flags = Flags(zero: bool, greater: bool, less: bool, jumped: bool)

  datatype VMState = VMState(ip: nat, regs: seq<Word>, flags: Flags, mem: Memory, output: seq<Event>)

  predicate StateOk(space: Space, s: VMState) {
    SpaceOk(space) && |s.regs| == TOTAL_REGISTERS && |s.mem| == space.end
  }

  function BinaryOf(code: VMOpCode): Option<BinaryOp> {
    match code
    case ADD_RRR_INTEGER => Some(AddInt) case SUB_RRR_INTEGER => Some(SubInt)
    case DIV_RRR_INTEGER => Some(DivInt) case MUL_RRR_INTEGER => Some(MulInt) case MOD_RRR_INTEGER => Some(ModInt)
    case ADD_RRR_UNSIGNED => Some(AddUInt) case SUB_RRR_UNSIGNED => Some(SubUInt)
    case DIV_RRR_UNSIGNED => Some(DivUInt) case MUL_RRR_UNSIGNED => Some(MulUInt)
    case MOD_RRR_UNSIGNED => Some(ModUInt)
    case AND_RRR => Some(LogicAnd) case OR_RRR => Some(LogicOr)
    case BIT_OR_RRR => Some(BitwiseOr) case BIT_AND_RRR => Some(BitwiseAnd)
    case BIT_OFFSET_LEFT_RRR => Some(OffsetLeft) case BIT_OFFSET_RIGHT_RRR => Some(OffsetRight)
    case _ => None
  }

  function UnaryOf(code: VMOpCode): Option<UnaryOp> {
    match code
    case NEG_RR_INTEGER => Some(NegInt) case NOT_RR => Some(LogicNot) case BIT_NOT_RR => Some(BitwiseNot)
    case _ => None
  }

  /** The comparison result replaces the three comparison flags and leaves the others. */
  function SetComparison(f: Flags, signed: bool, a: Word, b: Word): Flags {
    f.(zero := Compare(Equal, signed, a, b),
       greater := Compare(Greater, signed, a, b),
       less := Compare(Less, signed, a, b))
  }

  /** Bit k of a flag number. */
  predicate HasBit(mask: Word, k: nat) {
    (mask / Pow2Flag(k)) % 2 == 1
  }

  function Pow2Flag(k: nat): nat
    ensures Pow2Flag(k) > 0
  {
    if k == 0 then 1 else if k == 1 then 2 else if k == 2 then 4 else 8
  }

  predicate FlagHit(f: Flags, mask: Word) {
    (f.zero && HasBit(mask, 0)) || (f.greater && HasBit(mask, 1)) || (f.less && HasBit(mask, 2))
    || (f.jumped && HasBit(mask, 3))
  }

  datatype JumpTest = Always | IfSet | IfClear

  /** A VM operation, decoded. */
  datatype Instr =
    | Skip
    | Jump(test: JumpTest, target: Word, r: Word)
    | Binary(op: BinaryOp, d: Word, a: Word, b: Word)
    | Unary(uop: UnaryOp, d: Word, a: Word)
    | SetFlags(signed: bool, a: Word, b: Word)
    | GetFlag(d: Word, flag1: Word, flag2: Word)
    | Move(d: Word, a: Word)
    | Number(d: Word, x: Word)
    | LoadAbsolute(d: Word, address: Word, size: Word)
    | LoadLocal(d: Word, address: Word, size: Word)
    | StoreLocalAt(a: Word, address: Word, size: Word)
    | LoadBy(d: Word, a: Word, size: Word)
    | StoreBy(a: Word, d: Word, size: Word)
    | CopyRegisters(d: Word, a: Word, b: Word)
    | CopyNumbers(x: Word, y: Word, z: Word)
    | Call(call: Word, a: Word)
    | Unknown

  function Decode(op: VMOp): Instr {
    if BinaryOf(op.code).Some? then Binary(BinaryOf(op.code).value, op.arg0, op.arg1, op.arg2)
    else if UnaryOf(op.code).Some? then Unary(UnaryOf(op.code).value, op.arg0, op.arg1)
    else
      match op.code
      case NOP | TC_UTI_R | TC_ITU_R => Skip
      case JMP => Jump(Always, op.arg0, 0)
      case JMP_CV => Jump(IfSet, op.arg0, op.arg1)
      case JMP_CNV => Jump(IfClear, op.arg0, op.arg1)
      case CMP_RR_INTEGER => SetFlags(true, op.arg0, op.arg1)
      case CMP_RR_UNSIGNED => SetFlags(false, op.arg0, op.arg1)
      case GET_FLAG => GetFlag(op.arg0, op.arg1, op.arg2)
      case MOV_RR => Move(op.arg0, op.arg1)
      case MOV_RI => Number(op.arg0, op.arg1)
      case LOAD_ABSOLUTE => LoadAbsolute(op.arg0, op.arg1, op.arg2)
      case LOAD_LOCAL => LoadLocal(op.arg0, op.arg1, op.arg2)
      case STORE_LOCAL => StoreLocalAt(op.arg0, op.arg1, op.arg2)
      case LOAD_BY_ADDRESS => LoadBy(op.arg0, op.arg1, op.arg2)
      case STORE_BY_ADDRESS => StoreBy(op.arg0, op.arg1, op.arg2)
      case DYNAMIC_COPY => CopyRegisters(op.arg0, op.arg1, op.arg2)
      case STATIC_COPY => CopyNumbers(op.arg0, op.arg1, op.arg2)
      case VM_CALL => Call(op.arg0, op.arg1)
      case _ => Unknown
  }

  predicate IsReg(r: Word) {
    r < TOTAL_REGISTERS
  }

  /** Register numbers in range; anything else stops the model with UnknownOperation. */
  predicate Executable(i: Instr) {
    match i
    case Skip => true
    case Jump(_, _, r) => IsReg(r)
    case Binary(_, d, a, b) => IsReg(d) && IsReg(a) && IsReg(b)
    case Unary(_, d, a) => IsReg(d) && IsReg(a)
    case SetFlags(_, a, b) => IsReg(a) && IsReg(b)
    case GetFlag(d, _, _) => IsReg(d)
    case Move(d, a) => IsReg(d) && IsReg(a)
    case Number(d, _) => IsReg(d)
    case LoadAbsolute(d, _, _) => IsReg(d)
    case LoadLocal(d, _, _) => IsReg(d)
    case StoreLocalAt(a, _, _) => IsReg(a)
    case LoadBy(d, a, _) => IsReg(d) && IsReg(a)
    case StoreBy(a, d, _) => IsReg(d) && IsReg(a)
    case CopyRegisters(d, a, b) => IsReg(d) && IsReg(a) && IsReg(b)
    case CopyNumbers(_, _, _) => true
    case Call(_, a) => IsReg(a)
    case Unknown => false
  }

  function Put(s: VMState, r: Word, v: Word): VMState
    requires r < |s.regs|
  {
    s.(regs := s.regs[r := v])
  }

  function PutFrom(s: VMState, r: Word, v: Outcome<Word>): Outcome<VMState>
    requires r < |s.regs|
  {
    match v
    case Next(x) => Next(Put(s, r, x))
    case Fault(e) => Fault(e)
  }

  function PutMem(s: VMState, m: Outcome<Memory>): Outcome<VMState> {
    match m
    case Next(mem) => Next(s.(mem := mem))
    case Fault(e) => Fault(e)
  }

  predicate Taken(test: JumpTest, x: Word) {
    match test
    case Always => true
    case IfSet => x != 0
    case IfClear => x == 0
  }

  /** What one operation does, before the instruction pointer moves on. */
  function Execute(space: Space, i: Instr, s: VMState): Outcome<VMState>
    requires StateOk(space, s) && Executable(i)
  {
    match i
    case Skip => Next(s)
    case Jump(test, target, r) =>
      Next(if Taken(test, s.regs[r]) then s.(ip := target, flags := s.flags.(jumped := true)) else s)
    case Binary(op, d, a, b) =>
      (match EvalBinary(op, s.regs[a], s.regs[b])
       case Some(v) => Next(Put(s, d, v))
       case None => Fault(ZeroDivision))
    case Unary(op, d, a) => Next(Put(s, d, EvalUnary(op, s.regs[a])))
    case SetFlags(signed, a, b) => Next(s.(flags := SetComparison(s.flags, signed, s.regs[a], s.regs[b])))
    case GetFlag(d, flag1, flag2) => Next(Put(s, d, Bool(FlagHit(s.flags, flag1) || FlagHit(s.flags, flag2))))
    case Move(d, a) => Next(Put(s, d, s.regs[a]))
    case Number(d, x) => Next(Put(s, d, x))
    case LoadAbsolute(d, address, size) => PutFrom(s, d, Load(s.mem, space.heapStart, address, size))
    case LoadLocal(d, address, size) => PutFrom(s, d, Load(s.mem, space.heapStart, Wrap(s.regs[FP] + address), size))
    case StoreLocalAt(a, address, size) =>
      PutMem(s, StoreLocal(space, s.mem, Wrap(s.regs[FP] + address), s.regs[a], size))
    case LoadBy(d, a, size) => PutFrom(s, d, LoadByAddress(space, s.mem, s.regs[a], size))
    case StoreBy(a, d, size) => PutMem(s, StoreByAddress(space, s.mem, s.regs[d], s.regs[a], size))
    case CopyRegisters(d, a, b) => PutMem(s, Copy(space, s.mem, s.regs[d], s.regs[a], s.regs[b]))
    case CopyNumbers(x, y, z) => PutMem(s, Copy(space, s.mem, x, y, z))
    case Call(call, a) =>
      if call < 4 then Next(s.(output := s.output + [Event(call, s.regs[a])]))
      else if call == 4 then Next(Put(s, a, 0))
      else Next(s)
    case Unknown => Fault(UnknownOperation)
  }

  function Cleared(s: VMState): VMState {
    s.(flags := s.flags.(jumped := false))
  }

  /** One turn of the interpreter loop: the jumped flag is cleared first and decides whether ip advances. */
  function Turn(space: Space, i: Instr, s: VMState): Outcome<VMState>
    requires StateOk(space, s)
  {
    if !Executable(i) then Fault(UnknownOperation)
    else
      match Execute(space, i, Cleared(s))
      case Next(s') => Next(if s'.flags.jumped then s' else s'.(ip := s'.ip + 1))
      case Fault(e) => Fault(e)
  }

  lemma TurnKeepsOk(space: Space, i: Instr, s: VMState)
    requires StateOk(space, s)
    ensures var r := Turn(space, i, s); r.Next? ==> StateOk(space, r.state)
  {
  }

  /** At most n turns of the interpreter loop; it stops by itself at the end of the code. */
  function Run(space: Space, code: seq<VMOp>, s: VMState, n: nat): Outcome<VMState>
    requires StateOk(space, s)
    decreases n
  {
    if n == 0 || s.ip >= |code| then Next(s)
    else
      TurnKeepsOk(space, Decode(code[s.ip]), s);
      match Turn(space, Decode(code[s.ip]), s)
      case Next(s') => Run(space, code, s', n - 1)
      case Fault(e) => Fault(e)
  }
}
