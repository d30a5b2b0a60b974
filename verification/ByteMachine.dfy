/** The reference meaning of byte commands: labels, symbols, constants and module-relative addresses are symbolic. */
module ByteMachine {
  import opened Words
  import opened ByteCode
  import opened Machine

  const GENERAL_REGISTERS := 120

  datatype Config = Config(pc: nat, regs: seq<Word>, sp: Word, mem: Memory, output: seq<Event>)

  predicate ConfigOk(space: Space, c: Config) {
    SpaceOk(space) && |c.regs| == GENERAL_REGISTERS && |c.mem| == space.end
  }

  /** A command together with the module it belongs to. */
  datatype Item = Item(m: ModuleId, cmd: Command)

  // ----- operands -----

  predicate IsConstant(layout: Layout, a: Arg) {
    a.source == Constant && a.data < |layout.constants| == |layout.constantAddresses|
  }

  predicate IsPlace(layout: Layout, m: ModuleId, a: Arg) {
    || (a.source == MemoryAddress && m in layout.bases)
    || (a.source == Symbol && a.data < |layout.symbols|
        && layout.symbols[a.data].kind == VariableSymbol && layout.symbols[a.data].moduleId in layout.bases)
  }

  /** The address an operand denotes. */
  function PlaceAddress(layout: Layout, m: ModuleId, a: Arg): Word
    requires IsPlace(layout, m, a)
  {
    if a.source == MemoryAddress then Wrap(layout.bases[m] + a.data)
    else
      var s := layout.symbols[a.data];
      Wrap(layout.bases[s.moduleId] + s.offset)
  }

  // ----- what the operation codes mean -----

  function BinaryMeaning(op: ByteOpCode): Option<BinaryOp> {
    match op
    case ADDI => Some(AddInt) case SUBI => Some(SubInt) case DIVI => Some(DivInt)
    case MULI => Some(MulInt) case MODI => Some(ModInt)
    case ADDU => Some(AddUInt) case SUBU => Some(SubUInt) case DIVU => Some(DivUInt)
    case MULU => Some(MulUInt) case MODU => Some(ModUInt)
    case AND => Some(LogicAnd) case OR => Some(LogicOr)
    case BIT_OR => Some(BitwiseOr) case BIT_AND => Some(BitwiseAnd)
    case BIT_OFFSET_LEFT => Some(OffsetLeft) case BIT_OFFSET_RIGHT => Some(OffsetRight)
    case _ => None
  }

  function UnaryMeaning(op: ByteOpCode): Option<UnaryOp> {
    match op
    case NEGI => Some(NegInt) case NOT => Some(LogicNot) case BIT_NOT => Some(BitwiseNot)
    case _ => None
  }

  datatype Comparison = Comparison(rel: Relation, signed: bool)

  function ComparisonMeaning(op: ByteOpCode): Option<Comparison> {
    match op
    case EQUALI => Some(Comparison(Equal, true)) case NOT_EQUALI => Some(Comparison(NotEqual, true))
    case GREATERI => Some(Comparison(Greater, true)) case LESSI => Some(Comparison(Less, true))
    case EGREATERI => Some(Comparison(GreaterEqual, true)) case ELESSI => Some(Comparison(LessEqual, true))
    case EQUALU => Some(Comparison(Equal, false)) case NOT_EQUALU => Some(Comparison(NotEqual, false))
    case GREATERU => Some(Comparison(Greater, false)) case LESSU => Some(Comparison(Less, false))
    case EGREATERU => Some(Comparison(GreaterEqual, false)) case ELESSU => Some(Comparison(LessEqual, false))
    case _ => None
  }

  // ----- labels -----

  predicate IsLabel(cmd: Command, id: Word) {
    cmd.code == JMP_LABEL && cmd.arg0.data == id
  }

  predicate IsJump(cmd: Command) {
    cmd.code == JMP || cmd.code == JMPCV || cmd.code == JMPCNV
  }

  /** The index of the first label command with this id; |program| when there is none. */
  function FindLabel(program: seq<Item>, id: Word): (i: nat)
    ensures i <= |program|
    ensures i < |program| ==> IsLabel(program[i].cmd, id)
    ensures forall k :: 0 <= k < i ==> !IsLabel(program[k].cmd, id)
  {
    if program == [] then 0
    else if IsLabel(program[0].cmd, id) then 0
    else 1 + FindLabel(program[1..], id)
  }

  /** Every label id is declared at most once. */
  ghost predicate UniqueLabels(program: seq<Item>) {
    forall i, j :: 0 <= i < j < |program| && program[i].cmd.code == JMP_LABEL && program[j].cmd.code == JMP_LABEL
      ==> program[i].cmd.arg0.data != program[j].cmd.arg0.data
  }

  // ----- instructions -----

  datatype JumpTest = Always | IfSet | IfClear

  /** A byte command, decoded. */
  datatype Instr =
    | Skip
    | Retype
    | Jump(test: JumpTest, target: Word, r: Word)
    | Binary(op: BinaryOp, d: Word, a: Word, b: Word)
    | Unary(uop: UnaryOp, d: Word, a: Word)
    | CompareTo(c: Comparison, d: Word, a: Word, b: Word)
    | Move(d: Word, a: Word)
    | Number(d: Word, x: Word)
    | Grow(x: Word)
    | Shrink(x: Word)
    | AddressOf(place: Arg, d: Word)
    | ConstantAddress(constant: Arg, d: Word)
    | LoadBy(a: Word, d: Word, size: Word)
    | StoreBy(d: Word, a: Word, size: Word)
    | LoadConstant(constant: Arg, d: Word, size: Word)
    | LoadPlace(place: Arg, d: Word, size: Word)
    | StorePlace(place: Arg, a: Word, size: Word)
    | CopyRegisters(d: Word, a: Word, b: Word)
    | CopyNumbers(x: Word, y: Word, z: Word)
    | Call(call: Word, a: Word, b: Word)
    | Unsupported

  function Decode(cmd: Command): Instr {
    var a0, a1, a2 := cmd.arg0.data, cmd.arg1.data, cmd.arg2.data;
    if BinaryMeaning(cmd.code).Some? then Binary(BinaryMeaning(cmd.code).value, a0, a1, a2)
    else if UnaryMeaning(cmd.code).Some? then Unary(UnaryMeaning(cmd.code).value, a0, a1)
    else if ComparisonMeaning(cmd.code).Some? then CompareTo(ComparisonMeaning(cmd.code).value, a0, a1, a2)
    else
      match cmd.code
      case NOP | JMP_LABEL => Skip
      case TC_UTI | TC_ITU => Retype
      case JMP => Jump(Always, a0, 0)
      case JMPCV => Jump(IfSet, a0, a1)
      case JMPCNV => Jump(IfClear, a0, a1)
      case MOVRR => Move(a0, a1)
      case MOVRI => Number(a0, a1)
      case STACK_UP => Grow(a0)
      case STACK_DOWN => Shrink(a0)
      case LEA_STATIC => AddressOf(cmd.arg0, a1)
      case LEA_CONST => ConstantAddress(cmd.arg0, a1)
      case LOAD_DYNAMIC => LoadBy(a0, a1, a2)
      case STORE_DYNAMIC => StoreBy(a0, a1, a2)
      case LOAD_CONST_STATIC => LoadConstant(cmd.arg0, a1, a2)
      case LOAD_STATIC => LoadPlace(cmd.arg0, a1, a2)
      case STORE_STATIC => StorePlace(cmd.arg0, a1, a2)
      case COPY_DYNAMIC => CopyRegisters(a0, a1, a2)
      case COPY_STATIC => CopyNumbers(a0, a1, a2)
      case SPEC_CALL => Call(a0, a1, a2)
      case _ => Unsupported
  }

  // ----- programs the machine runs -----

  predicate General(r: Word) {
    r < GENERAL_REGISTERS
  }

  /** Operands the compiler gives each instruction: general registers, existing places and constants, known labels. */
  predicate Supported(layout: Layout, program: seq<Item>, m: ModuleId, i: Instr) {
    match i
    case Skip => true
    case Retype => true
    case Jump(_, target, r) => FindLabel(program, target) < |program| && General(r)
    case Binary(_, d, a, b) => General(d) && General(a) && General(b)
    case Unary(_, d, a) => General(d) && General(a)
    case CompareTo(_, d, a, b) => General(d) && General(a) && General(b)
    case Move(d, a) => General(d) && General(a)
    case Number(d, _) => General(d)
    case Grow(_) => true
    case Shrink(_) => true
    case AddressOf(place, d) => IsPlace(layout, m, place) && General(d)
    case ConstantAddress(constant, d) => IsConstant(layout, constant) && General(d)
    case LoadBy(a, d, size) => General(a) && General(d) && size <= 8
    case StoreBy(d, a, size) => General(a) && General(d) && size <= 8
    case LoadConstant(constant, d, size) =>
      IsConstant(layout, constant) && General(d) && size <= 8 && size <= |layout.constants[constant.data]|
    case LoadPlace(place, d, size) => IsPlace(layout, m, place) && General(d) && size <= 8
    case StorePlace(place, a, size) => IsPlace(layout, m, place) && General(a) && size <= 8
    case CopyRegisters(d, a, b) => General(d) && General(a) && General(b)
    case CopyNumbers(_, _, _) => true
    case Call(call, a, _) => call < 5 && General(a)
    case Unsupported => false
  }

  predicate NoReference(a: Arg) {
    a.source == Register || a.source == Immediate
  }

  /** Only an operand that may name a place or a constant does so; labels are plain numbers. */
  predicate CleanArguments(c: Command) {
    && NoReference(c.arg1) && NoReference(c.arg2)
    && (NoReference(c.arg0) || c.code in {LEA_STATIC, LEA_CONST, LOAD_CONST_STATIC, LOAD_STATIC, STORE_STATIC})
  }

  predicate SupportedItem(layout: Layout, program: seq<Item>, item: Item) {
    Supported(layout, program, item.m, Decode(item.cmd)) && CleanArguments(item.cmd)
  }

  predicate SupportedProgram(layout: Layout, program: seq<Item>) {
    forall i :: 0 <= i < |program| ==> SupportedItem(layout, program, program[i])
  }

  // ----- one step -----

  function SetReg(c: Config, r: Word, v: Word): Config
    requires r < |c.regs|
  {
    c.(regs := c.regs[r := v], pc := c.pc + 1)
  }

  function SetRegFrom(c: Config, r: Word, v: Outcome<Word>): Outcome<Config>
    requires r < |c.regs|
  {
    match v
    case Next(x) => Next(SetReg(c, r, x))
    case Fault(e) => Fault(e)
  }

  function SetMem(c: Config, m: Outcome<Memory>): Outcome<Config> {
    match m
    case Next(mem) => Next(c.(mem := mem, pc := c.pc + 1))
    case Fault(e) => Fault(e)
  }

  /** Printing calls 0 to 3 show a register; call 4 reads the last error, none in a run without faults. */
  function SystemCall(c: Config, call: Word, r: Word): Config
    requires r < |c.regs|
  {
    if call < 4 then c.(output := c.output + [Event(call, c.regs[r])], pc := c.pc + 1) else SetReg(c, r, 0)
  }

  predicate Taken(test: JumpTest, x: Word) {
    match test
    case Always => true
    case IfSet => x != 0
    case IfClear => x == 0
  }

  function StepInstr(layout: Layout, space: Space, program: seq<Item>, m: ModuleId, i: Instr, c: Config): Outcome<Config>
    requires ConfigOk(space, c) && Supported(layout, program, m, i)
  {
    match i
    case Skip => Next(c.(pc := c.pc + 1))
    case Retype => Next(c.(pc := c.pc + 1))
    case Jump(test, target, r) => Next(c.(pc := if Taken(test, c.regs[r]) then FindLabel(program, target) else c.pc + 1))
    case Binary(op, d, a, b) =>
      (match EvalBinary(op, c.regs[a], c.regs[b])
       case Some(v) => Next(SetReg(c, d, v))
       case None => Fault(ZeroDivision))
    case Unary(op, d, a) => Next(SetReg(c, d, EvalUnary(op, c.regs[a])))
    case CompareTo(k, d, a, b) => Next(SetReg(c, d, Bool(Compare(k.rel, k.signed, c.regs[a], c.regs[b]))))
    case Move(d, a) => Next(SetReg(c, d, c.regs[a]))
    case Number(d, x) => Next(SetReg(c, d, x))
    case Grow(x) => Next(c.(sp := Wrap(c.sp + x), pc := c.pc + 1))
    case Shrink(x) => Next(c.(sp := Wrap(c.sp - x), pc := c.pc + 1))
    case AddressOf(place, d) => Next(SetReg(c, d, PlaceAddress(layout, m, place)))
    case ConstantAddress(constant, d) => Next(SetReg(c, d, layout.constantAddresses[constant.data]))
    case LoadBy(a, d, size) => SetRegFrom(c, d, LoadByAddress(space, c.mem, c.regs[a], size))
    case StoreBy(d, a, size) => SetMem(c, StoreByAddress(space, c.mem, c.regs[d], c.regs[a], size))
    case LoadConstant(constant, d, size) => Next(SetReg(c, d, ReadBytes(layout.constants[constant.data], 0, size)))
    case LoadPlace(place, d, size) =>
      SetRegFrom(c, d, Load(c.mem, space.heapStart, PlaceAddress(layout, m, place), size))
    case StorePlace(place, a, size) =>
      SetMem(c, StoreLocal(space, c.mem, PlaceAddress(layout, m, place), c.regs[a], size))
    case CopyRegisters(d, a, b) => SetMem(c, Copy(space, c.mem, c.regs[d], c.regs[a], c.regs[b]))
    case CopyNumbers(x, y, z) => SetMem(c, Copy(space, c.mem, x, y, z))
    case Call(call, a, _) => Next(SystemCall(c, call, a))
    case Unsupported => Fault(UnknownOperation)
  }

  function Step(layout: Layout, space: Space, program: seq<Item>, c: Config): Outcome<Config>
    requires ConfigOk(space, c) && SupportedProgram(layout, program) && c.pc < |program|
  {
    assert SupportedItem(layout, program, program[c.pc]);
    StepInstr(layout, space, program, program[c.pc].m, Decode(program[c.pc].cmd), c)
  }

  lemma InstrKeepsOk(layout: Layout, space: Space, program: seq<Item>, m: ModuleId, i: Instr, c: Config)
    requires ConfigOk(space, c) && Supported(layout, program, m, i) && c.pc < |program|
    ensures var r := StepInstr(layout, space, program, m, i, c);
            r.Next? ==> ConfigOk(space, r.state) && r.state.pc <= |program|
  {
  }

  lemma StepKeepsOk(layout: Layout, space: Space, program: seq<Item>, c: Config)
    requires ConfigOk(space, c) && SupportedProgram(layout, program) && c.pc < |program|
    ensures var r := Step(layout, space, program, c); r.Next? ==> ConfigOk(space, r.state) && r.state.pc <= |program|
  {
    assert SupportedItem(layout, program, program[c.pc]);
    InstrKeepsOk(layout, space, program, program[c.pc].m, Decode(program[c.pc].cmd), c);
  }

  /** Where a run of at most n steps ends: still running, stopped at the end of the program, or faulted. */
  function Run(layout: Layout, space: Space, program: seq<Item>, c: Config, n: nat): Outcome<Config>
    requires ConfigOk(space, c) && SupportedProgram(layout, program)
    decreases n
  {
    if n == 0 || c.pc >= |program| then Next(c)
    else
      StepKeepsOk(layout, space, program, c);
      match Step(layout, space, program, c)
      case Next(c') => Run(layout, space, program, c', n - 1)
      case Fault(e) => Fault(e)
  }
}
