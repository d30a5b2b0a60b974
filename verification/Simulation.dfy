/** The linked VM code behaves as the byte program it was made from. */
module Simulation {
  import opened Words
  import opened ByteCode
  import opened Machine
  import opened LinkSpec
  import B = ByteMachine
  import V = VM

  /** A program, the layout it is linked against and its relocated commands. */
  datatype Link = Link(layout: Layout, space: Space, program: seq<B.Item>, cs: seq<Command>)

  ghost predicate LinkOk(l: Link) {
    && B.SupportedProgram(l.layout, l.program) && B.UniqueLabels(l.program)
    && |l.cs| == |l.program|
    && (forall i :: 0 <= i < |l.cs| ==> RelocateCommand(l.layout, l.program[i].m, l.program[i].cmd) == Some(l.cs[i]))
    && |Emit(l.cs)| < TWO64
    && |l.layout.constants| == |l.layout.constantAddresses|
  }

  /** The number of VM operations before command i: where command i starts. */
  function Pos(cs: seq<Command>, i: nat): nat
    requires i <= |cs|
  {
    |Emit(cs[..i])|
  }

  /** Every constant's bytes are at its address, below the stack. */
  predicate ConstantsLoaded(layout: Layout, space: Space, mem: Memory) {
    |layout.constants| == |layout.constantAddresses| && space.stackStart < space.heapStart <= |mem| &&
    forall k :: 0 <= k < |layout.constants| ==>
      var a, n := layout.constantAddresses[k], |layout.constants[k]|;
      a + n <= space.stackStart && mem[a..a + n] == layout.constants[k]
  }

  /** Same general registers, stack pointer, memory and output; the frame pointer is 0; A0 and the flags are free. */
  ghost predicate Related(l: Link, b: B.Config, v: V.VMState) {
    && B.ConfigOk(l.space, b) && V.StateOk(l.space, v)
    && b.pc <= |l.program| == |l.cs| && v.ip == Pos(l.cs, b.pc)
    && (forall r :: 0 <= r < B.GENERAL_REGISTERS ==> v.regs[r] == b.regs[r])
    && v.regs[V.SP] == b.sp && v.regs[V.FP] == 0
    && v.mem == b.mem && v.output == b.output
    && ConstantsLoaded(l.layout, l.space, b.mem)
  }

  // ----- where a command's operations are -----

  lemma PosStep(cs: seq<Command>, i: nat)
    requires i < |cs|
    ensures Emit(cs[..i + 1]) == Emit(cs[..i]) + Expansion(cs[i])
    ensures Pos(cs, i + 1) == Pos(cs, i) + |Expansion(cs[i])|
  {
    assert cs[..i + 1] == cs[..i] + [cs[i]];
    EmitAppend(cs[..i], cs[i]);
  }

  lemma EmitPrefix(cs: seq<Command>, i: nat)
    requires i <= |cs|
    ensures Emit(cs[..i]) <= Emit(cs)
  {
    FlattenPrefix(Expansions(cs), i);
    assert Expansions(cs[..i]) == Expansions(cs)[..i];
  }

  /** The code from position p on is this list of operations with jump targets filled in. */
  ghost predicate CodeFrom(code: seq<V.VMOp>, defs: seq<Def>, p: nat, x: seq<V.VMOp>) {
    p + |x| <= |code| && forall k :: p <= k < p + |x| ==> code[k] == Resolve(x[k - p], k, defs)
  }

  lemma ResolvedSlice(e: seq<V.VMOp>, defs: seq<Def>, before: seq<V.VMOp>, x: seq<V.VMOp>)
    requires before + x <= e
    ensures CodeFrom(ResolveAll(e, defs), defs, |before|, x)
  {
    forall k | |before| <= k < |before| + |x|
      ensures e[k] == x[k - |before|]
    {
      assert (before + x)[k] == x[k - |before|];
    }
  }

  /** The linked code of command i is its expansion with jump targets filled in. */
  lemma CodeAt(cs: seq<Command>, i: nat)
    requires i < |cs|
    ensures Pos(cs, i) + |Expansion(cs[i])| == Pos(cs, i + 1)
    ensures CodeFrom(Linked(cs), Defs(cs), Pos(cs, i), Expansion(cs[i]))
  {
    hide Expansion, CodeFrom;
    PosStep(cs, i);
    EmitPrefix(cs, i + 1);
    ResolvedSlice(Emit(cs), Defs(cs), Emit(cs[..i]), Expansion(cs[i]));
  }

  // ----- labels -----

  /** Declaration d comes from command j. */
  predicate DeclaredAt(cs: seq<Command>, d: Def, j: nat) {
    j < |cs| && B.IsLabel(cs[j], d.id) && d.pos == Pos(cs, j)
  }

  lemma {:induction false} DefsOf(cs: seq<Command>, k: nat) returns (j: nat)
    requires k < |Defs(cs)|
    ensures DeclaredAt(cs, Defs(cs)[k], j)
    decreases |cs|
  {
    var before := cs[..|cs| - 1];
    if k < |Defs(before)| {
      j := DefsOf(before, k);
      assert cs[..j] == before[..j];
    } else {
      j := |cs| - 1;
    }
  }

  lemma {:induction false} LabelHasDef(cs: seq<Command>, j: nat)
    requires j < |cs| && cs[j].code == JMP_LABEL
    ensures Defined(Defs(cs), cs[j].arg0.data)
    decreases |cs|
  {
    hide Emit;
    var before := cs[..|cs| - 1];
    if j < |before| {
      LabelHasDef(before, j);
      var k :| 0 <= k < |Defs(before)| && Defs(before)[k].id == cs[j].arg0.data;
      assert Defs(cs)[k].id == cs[j].arg0.data;
    } else {
      assert Defs(cs)[|Defs(cs)| - 1].id == cs[j].arg0.data;
    }
  }

  lemma {:induction false} TargetUnique(defs: seq<Def>, id: Word, pos: nat, p: nat)
    requires forall k :: 0 <= k < |defs| && defs[k].id == id ==> defs[k].pos == p
    ensures Target(defs, id, pos).Some? ==> Target(defs, id, pos).value == p
  {
    if defs != [] {
      TargetUnique(defs[..|defs| - 1], id, pos, p);
    }
  }

  lemma LabelSurvives(l: Link, j: nat, id: Word)
    requires LinkOk(l) && j < |l.cs|
    ensures B.IsLabel(l.cs[j], id) <==> B.IsLabel(l.program[j].cmd, id)
  {
    assert RelocateCommand(l.layout, l.program[j].m, l.program[j].cmd) == Some(l.cs[j]);
    assert B.SupportedItem(l.layout, l.program, l.program[j]);
  }

  /** With unique labels, a jump's target is the position of its label's command. */
  lemma JumpTarget(l: Link, id: Word, pos: nat)
    requires LinkOk(l) && B.FindLabel(l.program, id) < |l.program|
    ensures Target(Defs(l.cs), id, pos) == Some(Pos(l.cs, B.FindLabel(l.program, id)))
  {
    var j, defs := B.FindLabel(l.program, id), Defs(l.cs);
    LabelSurvives(l, j, id);
    LabelHasDef(l.cs, j);
    TargetDefined(defs, id, pos);
    forall k | 0 <= k < |defs| && defs[k].id == id
      ensures defs[k].pos == Pos(l.cs, j)
    {
      var j' := DefsOf(l.cs, k);
      LabelSurvives(l, j', id);
      assert l.program[j].cmd.code == JMP_LABEL && l.program[j'].cmd.code == JMP_LABEL;
      assert j == j';
    }
    TargetUnique(defs, id, pos, Pos(l.cs, j));
  }

  // ----- how a command is lowered -----

  /** How a comparison is spelled with flags. */
  function FlagOf(rel: Relation): (Word, Word, bool) {
    match rel
    case Equal => (V.FLAG_ZERO, V.FLAG_NONE, false)
    case NotEqual => (V.FLAG_ZERO, V.FLAG_NONE, true)
    case Greater => (V.FLAG_GREATER, V.FLAG_NONE, false)
    case Less => (V.FLAG_LESS, V.FLAG_NONE, false)
    case GreaterEqual => (V.FLAG_GREATER, V.FLAG_ZERO, false)
    case LessEqual => (V.FLAG_LESS, V.FLAG_ZERO, false)
  }

  function TestOf(test: B.JumpTest): V.JumpTest {
    match test
    case Always => V.Always
    case IfSet => V.IfSet
    case IfClear => V.IfClear
  }

  /** Places and constants the instruction names exist. */
  predicate Named(layout: Layout, m: ModuleId, i: B.Instr) {
    && ((i.AddressOf? || i.LoadPlace? || i.StorePlace?) ==> B.IsPlace(layout, m, i.place))
    && ((i.ConstantAddress? || i.LoadConstant?) ==> B.IsConstant(layout, i.constant))
  }

  /** The decoded VM operations of one decoded byte command; a jump goes to the given target. */
  function Lower(layout: Layout, m: ModuleId, i: B.Instr, target: Word): seq<V.Instr>
    requires Named(layout, m, i)
  {
    match i
    case Skip => []
    case Retype => [V.Skip]
    case Jump(test, _, r) => [V.Jump(TestOf(test), target, r)]
    case Binary(op, d, a, b) => [V.Binary(op, d, a, b)]
    case Unary(op, d, a) => [V.Unary(op, d, a)]
    case CompareTo(k, d, a, b) =>
      var (flag1, flag2, negate) := FlagOf(k.rel);
      [V.SetFlags(k.signed, a, b), V.GetFlag(d, flag1, flag2)] + if negate then [V.Unary(LogicNot, d, d)] else []
    case Move(d, a) => [V.Move(d, a)]
    case Number(d, x) => [V.Number(d, x)]
    case Grow(x) => [V.Number(V.A0, x), V.Binary(AddUInt, V.SP, V.SP, V.A0)]
    case Shrink(x) => [V.Number(V.A0, x), V.Binary(SubUInt, V.SP, V.SP, V.A0)]
    case AddressOf(place, d) => [V.Number(d, B.PlaceAddress(layout, m, place))]
    case ConstantAddress(constant, d) => [V.Number(d, layout.constantAddresses[constant.data])]
    case LoadBy(a, d, size) => [V.LoadBy(d, a, size)]
    case StoreBy(d, a, size) => [V.StoreBy(a, d, size)]
    case LoadConstant(constant, d, size) => [V.LoadAbsolute(d, layout.constantAddresses[constant.data], size)]
    case LoadPlace(place, d, size) => [V.LoadLocal(d, B.PlaceAddress(layout, m, place), size)]
    case StorePlace(place, a, size) => [V.StoreLocalAt(a, B.PlaceAddress(layout, m, place), size)]
    case CopyRegisters(d, a, b) => [V.CopyRegisters(d, a, b)]
    case CopyNumbers(x, y, z) => [V.CopyNumbers(x, y, z)]
    case Call(call, a, _) => [V.Call(call, a)]
    case Unsupported => []
  }

  function DecodeAll(ops: seq<V.VMOp>): seq<V.Instr> {
    seq(|ops|, t requires 0 <= t < |ops| => V.Decode(ops[t]))
  }

  lemma DecodeOne(ops: seq<V.VMOp>)
    requires |ops| == 1
    ensures DecodeAll(ops) == [V.Decode(ops[0])]
  {
  }

  /** What relocation leaves of each operand: plain numbers stay, places become addresses. */
  predicate Relocated(layout: Layout, m: ModuleId, cmd: Command, c: Command) {
    && c.code == cmd.code && c.arg1 == cmd.arg1 && c.arg2 == cmd.arg2
    && (B.NoReference(cmd.arg0) ==> c.arg0 == cmd.arg0)
    && (B.IsPlace(layout, m, cmd.arg0) ==> c.arg0.data == B.PlaceAddress(layout, m, cmd.arg0))
    && (B.IsConstant(layout, cmd.arg0) ==> c.arg0.data == layout.constantAddresses[cmd.arg0.data])
  }

  lemma RelocatedOperands(layout: Layout, m: ModuleId, cmd: Command, c: Command)
    requires RelocateCommand(layout, m, cmd) == Some(c) && B.CleanArguments(cmd)
    ensures Relocated(layout, m, cmd, c)
  {
  }

  /** The operation table keeps the meaning of every arithmetic and logic code. */
  lemma TableKeepsMeaning(op: ByteOpCode)
    ensures B.BinaryMeaning(op).Some? ==>
              && SectionOf(op) == ArithmeticLogic && TableCode(op) != V.VMOpCode.NOP
              && V.BinaryOf(TableCode(op)) == B.BinaryMeaning(op)
    ensures B.UnaryMeaning(op).Some? ==>
              && SectionOf(op) == ArithmeticLogic && TableCode(op) != V.VMOpCode.NOP
              && V.UnaryOf(TableCode(op)) == B.UnaryMeaning(op) && V.BinaryOf(TableCode(op)) == None
  {
    hide TableCode, SectionOf, V.BinaryOf, V.UnaryOf, B.BinaryMeaning, B.UnaryMeaning;
    OperationSection(op);
    BinaryInTable(op);
    UnaryInTable(op);
  }

  lemma OperationSection(op: ByteOpCode)
    ensures B.BinaryMeaning(op).Some? || B.UnaryMeaning(op).Some? ==> SectionOf(op) == ArithmeticLogic
  {
  }

  lemma BinaryInTable(op: ByteOpCode)
    ensures B.BinaryMeaning(op).Some? ==>
              TableCode(op) != V.VMOpCode.NOP && V.BinaryOf(TableCode(op)) == B.BinaryMeaning(op)
  {
  }

  lemma UnaryInTable(op: ByteOpCode)
    ensures B.UnaryMeaning(op).Some? ==>
              && TableCode(op) != V.VMOpCode.NOP
              && V.UnaryOf(TableCode(op)) == B.UnaryMeaning(op) && V.BinaryOf(TableCode(op)) == None
  {
  }

  lemma ComparisonIsSpelled(op: ByteOpCode)
    requires B.ComparisonMeaning(op).Some?
    ensures SectionOf(op) == Comparing && SpellComparison(op).Some?
    ensures var k, s := B.ComparisonMeaning(op).value, SpellComparison(op).value;
            && s.cmp == (if k.signed then V.CMP_RR_INTEGER else V.CMP_RR_UNSIGNED)
            && (s.flag1, s.flag2, s.negate) == FlagOf(k.rel)
  {
  }

  lemma ArithmeticIsLowering(layout: Layout, m: ModuleId, cmd: Command, c: Command)
    requires Relocated(layout, m, cmd, c) && B.NoReference(cmd.arg0)
    requires B.BinaryMeaning(cmd.code).Some? || (B.BinaryMeaning(cmd.code).None? && B.UnaryMeaning(cmd.code).Some?)
    ensures DecodeAll(Expansion(c)) == Lower(layout, m, B.Decode(cmd), c.arg0.data)
  {
    TableKeepsMeaning(cmd.code);
    assert Expansion(c) == [V.VMOp(TableCode(c.code), c.arg0.data, c.arg1.data, c.arg2.data)];
  }

  lemma ComparisonIsLowering(layout: Layout, m: ModuleId, cmd: Command, c: Command)
    requires Relocated(layout, m, cmd, c) && B.NoReference(cmd.arg0)
    requires B.BinaryMeaning(cmd.code).None? && B.UnaryMeaning(cmd.code).None? && B.ComparisonMeaning(cmd.code).Some?
    ensures DecodeAll(Expansion(c)) == Lower(layout, m, B.Decode(cmd), c.arg0.data)
  {
    ComparisonIsSpelled(cmd.code);
    var s := SpellComparison(c.code).value;
    assert Expansion(c) == [V.VMOp(s.cmp, c.arg1.data, c.arg2.data, 0), V.VMOp(V.GET_FLAG, c.arg0.data, s.flag1, s.flag2)]
                           + if s.negate then [V.VMOp(V.NOT_RR, c.arg0.data, c.arg0.data, 0)] else [];
  }

  lemma OtherIsLowering(layout: Layout, m: ModuleId, cmd: Command, c: Command)
    requires Relocated(layout, m, cmd, c) && B.CleanArguments(cmd)
    requires B.BinaryMeaning(cmd.code).None? && B.UnaryMeaning(cmd.code).None? && B.ComparisonMeaning(cmd.code).None?
    requires B.Decode(cmd) != B.Unsupported && Named(layout, m, B.Decode(cmd))
    ensures DecodeAll(Expansion(c)) == Lower(layout, m, B.Decode(cmd), c.arg0.data)
  {
    if SectionOf(c.code) == MemoryRegisters {
      MemoryIsLowering(layout, m, cmd, c);
    } else {
      ControlIsLowering(layout, m, cmd, c);
    }
  }

  lemma MemoryIsLowering(layout: Layout, m: ModuleId, cmd: Command, c: Command)
    requires Relocated(layout, m, cmd, c) && B.CleanArguments(cmd) && SectionOf(c.code) == MemoryRegisters
    requires B.Decode(cmd) != B.Unsupported && Named(layout, m, B.Decode(cmd))
    ensures DecodeAll(Expansion(c)) == Lower(layout, m, B.Decode(cmd), c.arg0.data)
  {
    assert Expansion(c) == ExpandMemory(c).value;
    if c.code in {LEA_STATIC, LEA_CONST, LOAD_CONST_STATIC, LOAD_STATIC, STORE_STATIC} {
      ReferenceIsLowering(layout, m, cmd, c);
    } else {
      RegistersIsLowering(layout, m, cmd, c);
    }
  }

  lemma ReferenceDecoded(cmd: Command)
    ensures cmd.code == LEA_STATIC ==> B.Decode(cmd) == B.AddressOf(cmd.arg0, cmd.arg1.data)
    ensures cmd.code == LEA_CONST ==> B.Decode(cmd) == B.ConstantAddress(cmd.arg0, cmd.arg1.data)
    ensures cmd.code == LOAD_CONST_STATIC ==> B.Decode(cmd) == B.LoadConstant(cmd.arg0, cmd.arg1.data, cmd.arg2.data)
    ensures cmd.code == LOAD_STATIC ==> B.Decode(cmd) == B.LoadPlace(cmd.arg0, cmd.arg1.data, cmd.arg2.data)
    ensures cmd.code == STORE_STATIC ==> B.Decode(cmd) == B.StorePlace(cmd.arg0, cmd.arg1.data, cmd.arg2.data)
  {
  }

  /** How the VM reads the operations that move data. */
  lemma MovesDecoded(op: V.VMOp)
    ensures op.code == V.MOV_RR ==> V.Decode(op) == V.Move(op.arg0, op.arg1)
    ensures op.code == V.MOV_RI ==> V.Decode(op) == V.Number(op.arg0, op.arg1)
    ensures op.code == V.LOAD_ABSOLUTE ==> V.Decode(op) == V.LoadAbsolute(op.arg0, op.arg1, op.arg2)
    ensures op.code == V.LOAD_LOCAL ==> V.Decode(op) == V.LoadLocal(op.arg0, op.arg1, op.arg2)
    ensures op.code == V.STORE_LOCAL ==> V.Decode(op) == V.StoreLocalAt(op.arg0, op.arg1, op.arg2)
    ensures op.code == V.LOAD_BY_ADDRESS ==> V.Decode(op) == V.LoadBy(op.arg0, op.arg1, op.arg2)
    ensures op.code == V.STORE_BY_ADDRESS ==> V.Decode(op) == V.StoreBy(op.arg0, op.arg1, op.arg2)
    ensures op.code == V.DYNAMIC_COPY ==> V.Decode(op) == V.CopyRegisters(op.arg0, op.arg1, op.arg2)
    ensures op.code == V.STATIC_COPY ==> V.Decode(op) == V.CopyNumbers(op.arg0, op.arg1, op.arg2)
  {
  }

  lemma ReferenceExpanded(c: Command)
    ensures c.code == LEA_STATIC || c.code == LEA_CONST ==> ExpandMemory(c) == Some([V.VMOp(V.MOV_RI, c.arg1.data, c.arg0.data, 0)])
    ensures c.code == LOAD_CONST_STATIC ==> ExpandMemory(c) == Some([V.VMOp(V.LOAD_ABSOLUTE, c.arg1.data, c.arg0.data, c.arg2.data)])
    ensures c.code == LOAD_STATIC ==> ExpandMemory(c) == Some([V.VMOp(V.LOAD_LOCAL, c.arg1.data, c.arg0.data, c.arg2.data)])
    ensures c.code == STORE_STATIC ==> ExpandMemory(c) == Some([V.VMOp(V.STORE_LOCAL, c.arg1.data, c.arg0.data, c.arg2.data)])
  {
  }

  lemma ReferenceIsLowering(layout: Layout, m: ModuleId, cmd: Command, c: Command)
    requires Relocated(layout, m, cmd, c)
    requires c.code in {LEA_STATIC, LEA_CONST, LOAD_CONST_STATIC, LOAD_STATIC, STORE_STATIC}
    requires Named(layout, m, B.Decode(cmd))
    ensures ExpandMemory(c).Some?
    ensures DecodeAll(ExpandMemory(c).value) == Lower(layout, m, B.Decode(cmd), c.arg0.data)
  {
    hide B.Decode, DecodeAll, V.Decode, B.IsPlace, B.IsConstant, B.PlaceAddress, ExpandMemory;
    ReferenceDecoded(cmd);
    ReferenceExpanded(c);
    var ops := ExpandMemory(c).value;
    MovesDecoded(ops[0]);
    DecodeOne(ops);
  }

  lemma RegistersDecoded(cmd: Command)
    requires SectionOf(cmd.code) == MemoryRegisters && B.Decode(cmd) != B.Unsupported
    requires cmd.code !in {LEA_STATIC, LEA_CONST, LOAD_CONST_STATIC, LOAD_STATIC, STORE_STATIC}
    ensures cmd.code in {MOVRR, MOVRI, STACK_UP, STACK_DOWN, LOAD_DYNAMIC, STORE_DYNAMIC, COPY_DYNAMIC, COPY_STATIC}
    ensures var x, y, z := cmd.arg0.data, cmd.arg1.data, cmd.arg2.data;
            && (cmd.code == MOVRR ==> B.Decode(cmd) == B.Move(x, y))
            && (cmd.code == MOVRI ==> B.Decode(cmd) == B.Number(x, y))
            && (cmd.code == STACK_UP ==> B.Decode(cmd) == B.Grow(x))
            && (cmd.code == STACK_DOWN ==> B.Decode(cmd) == B.Shrink(x))
            && (cmd.code == LOAD_DYNAMIC ==> B.Decode(cmd) == B.LoadBy(x, y, z))
            && (cmd.code == STORE_DYNAMIC ==> B.Decode(cmd) == B.StoreBy(x, y, z))
            && (cmd.code == COPY_DYNAMIC ==> B.Decode(cmd) == B.CopyRegisters(x, y, z))
            && (cmd.code == COPY_STATIC ==> B.Decode(cmd) == B.CopyNumbers(x, y, z))
  {
  }

  lemma StackDecoded(c: Command)
    requires c.code == STACK_UP || c.code == STACK_DOWN
    ensures ExpandMemory(c).Some?
    ensures DecodeAll(ExpandMemory(c).value)
            == [V.Number(V.A0, c.arg0.data), V.Binary(if c.code == STACK_UP then AddUInt else SubUInt, V.SP, V.SP, V.A0)]
  {
  }

  /** A command of the memory section whose expansion is one operation. */
  lemma RegistersDecodeOne(cmd: Command, c: Command)
    requires SectionOf(cmd.code) == MemoryRegisters && B.Decode(cmd) != B.Unsupported && c.code == cmd.code
    requires c.arg0.data == cmd.arg0.data && c.arg1.data == cmd.arg1.data && c.arg2.data == cmd.arg2.data
    requires c.code !in {LEA_STATIC, LEA_CONST, LOAD_CONST_STATIC, LOAD_STATIC, STORE_STATIC, STACK_UP, STACK_DOWN}
    ensures ExpandMemory(c).Some? && |ExpandMemory(c).value| == 1
    ensures var op, x, y, z := V.Decode(ExpandMemory(c).value[0]), c.arg0.data, c.arg1.data, c.arg2.data;
            match B.Decode(cmd)
            case Move(d, a) => op == V.Move(d, a)
            case Number(d, n) => op == V.Number(d, n)
            case LoadBy(a, d, size) => op == V.LoadBy(d, a, size)
            case StoreBy(a, d, size) => op == V.StoreBy(d, a, size)
            case CopyRegisters(d, a, b) => op == V.CopyRegisters(d, a, b)
            case CopyNumbers(d, a, b) => op == V.CopyNumbers(d, a, b)
            case _ => false
  {
    hide B.Decode, V.Decode;
    RegistersDecoded(cmd);
    MovesDecoded(ExpandMemory(c).value[0]);
  }

  lemma RegistersIsLowering(layout: Layout, m: ModuleId, cmd: Command, c: Command)
    requires Relocated(layout, m, cmd, c) && B.NoReference(cmd.arg0) && SectionOf(c.code) == MemoryRegisters
    requires c.code !in {LEA_STATIC, LEA_CONST, LOAD_CONST_STATIC, LOAD_STATIC, STORE_STATIC}
    requires B.Decode(cmd) != B.Unsupported && Named(layout, m, B.Decode(cmd))
    ensures ExpandMemory(c).Some?
    ensures DecodeAll(ExpandMemory(c).value) == Lower(layout, m, B.Decode(cmd), c.arg0.data)
  {
    hide B.Decode, DecodeAll, V.Decode, ExpandMemory;
    if c.code == STACK_UP || c.code == STACK_DOWN {
      RegistersDecoded(cmd);
      StackDecoded(c);
    } else {
      RegistersDecodeOne(cmd, c);
      DecodeOne(ExpandMemory(c).value);
    }
  }

  lemma ControlDecoded(cmd: Command)
    requires SectionOf(cmd.code) == ControlFlow || SectionOf(cmd.code) == Special || SectionOf(cmd.code) == Outside
    requires B.Decode(cmd) != B.Unsupported
    ensures cmd.code in {ByteOpCode.NOP, JMP_LABEL, TC_UTI, TC_ITU, ByteOpCode.JMP, JMPCV, JMPCNV, SPEC_CALL}
    ensures cmd.code == ByteOpCode.NOP || cmd.code == JMP_LABEL ==> B.Decode(cmd) == B.Skip
    ensures cmd.code == TC_UTI || cmd.code == TC_ITU ==> B.Decode(cmd) == B.Retype
    ensures cmd.code == ByteOpCode.JMP ==> B.Decode(cmd) == B.Jump(B.Always, cmd.arg0.data, 0)
    ensures cmd.code == JMPCV ==> B.Decode(cmd) == B.Jump(B.IfSet, cmd.arg0.data, cmd.arg1.data)
    ensures cmd.code == JMPCNV ==> B.Decode(cmd) == B.Jump(B.IfClear, cmd.arg0.data, cmd.arg1.data)
    ensures cmd.code == SPEC_CALL ==> B.Decode(cmd) == B.Call(cmd.arg0.data, cmd.arg1.data, cmd.arg2.data)
  {
  }

  /** How the VM reads the operations that neither compute nor move data. */
  lemma ControlOpsDecoded(op: V.VMOp)
    ensures op.code == V.JMP ==> V.Decode(op) == V.Jump(V.Always, op.arg0, 0)
    ensures op.code == V.JMP_CV ==> V.Decode(op) == V.Jump(V.IfSet, op.arg0, op.arg1)
    ensures op.code == V.JMP_CNV ==> V.Decode(op) == V.Jump(V.IfClear, op.arg0, op.arg1)
    ensures op.code == V.TC_UTI_R || op.code == V.TC_ITU_R ==> V.Decode(op) == V.Skip
    ensures op.code == V.VM_CALL ==> V.Decode(op) == V.Call(op.arg0, op.arg1)
  {
  }

  lemma ControlExpanded(c: Command)
    ensures var x, y, z := c.arg0.data, c.arg1.data, c.arg2.data;
            && (c.code == ByteOpCode.NOP || c.code == JMP_LABEL ==> Expansion(c) == [])
            && (c.code == ByteOpCode.JMP ==> Expansion(c) == [V.VMOp(V.JMP, x, 0, 0)])
            && (c.code == JMPCV ==> Expansion(c) == [V.VMOp(V.JMP_CV, x, y, 0)])
            && (c.code == JMPCNV ==> Expansion(c) == [V.VMOp(V.JMP_CNV, x, y, 0)])
  {
    hide ExpandMemory, SpellComparison, TableCode;
  }

  lemma SpecialExpanded(c: Command)
    ensures c.code == TC_UTI || c.code == TC_ITU ==>
              |Expansion(c)| == 1 && (Expansion(c)[0].code == V.TC_UTI_R || Expansion(c)[0].code == V.TC_ITU_R)
    ensures c.code == SPEC_CALL ==>
              |Expansion(c)| == 1 && Expansion(c)[0].code == V.VM_CALL
              && Expansion(c)[0].arg0 == c.arg0.data && Expansion(c)[0].arg1 == c.arg1.data
  {
    hide ExpandMemory, SpellComparison, TableCode;
  }

  /** A jump, a conversion or a call becomes one operation; a label or an empty command none. */
  lemma ControlDecodeOne(cmd: Command, c: Command)
    requires SectionOf(c.code) == ControlFlow || SectionOf(c.code) == Special || SectionOf(c.code) == Outside
    requires B.Decode(cmd) != B.Unsupported && c.code == cmd.code
    requires c.arg0.data == cmd.arg0.data && c.arg1.data == cmd.arg1.data && c.arg2.data == cmd.arg2.data
    ensures B.Decode(cmd) == B.Skip ==> Expansion(c) == []
    ensures B.Decode(cmd) != B.Skip ==>
              && |Expansion(c)| == 1
              && var op := V.Decode(Expansion(c)[0]);
                 match B.Decode(cmd)
                 case Retype => op == V.Skip
                 case Jump(test, _, r) => op == V.Jump(TestOf(test), c.arg0.data, r)
                 case Call(call, a, _) => op == V.Call(call, a)
                 case _ => false
  {
    hide B.Decode, V.Decode, Expansion;
    ControlDecoded(cmd);
    ControlExpanded(c);
    SpecialExpanded(c);
    if |Expansion(c)| == 1 {
      ControlOpsDecoded(Expansion(c)[0]);
    }
  }

  lemma ControlIsLowering(layout: Layout, m: ModuleId, cmd: Command, c: Command)
    requires Relocated(layout, m, cmd, c) && B.NoReference(cmd.arg0)
    requires SectionOf(c.code) == ControlFlow || SectionOf(c.code) == Special || SectionOf(c.code) == Outside
    requires B.Decode(cmd) != B.Unsupported && Named(layout, m, B.Decode(cmd))
    ensures DecodeAll(Expansion(c)) == Lower(layout, m, B.Decode(cmd), c.arg0.data)
  {
    hide B.Decode, DecodeAll, V.Decode, B.IsPlace, B.IsConstant, B.PlaceAddress, Expansion;
    ControlDecodeOne(cmd, c);
    DecodeNone();
    if |Expansion(c)| == 1 {
      DecodeOne(Expansion(c));
    }
  }

  lemma DecodeNone()
    ensures DecodeAll([]) == []
  {
  }

  lemma NamesNeedReference(layout: Layout, m: ModuleId, cmd: Command)
    requires B.CleanArguments(cmd)
    requires SectionOf(cmd.code) != MemoryRegisters
    ensures B.NoReference(cmd.arg0)
  {
  }

  /** Relocating, expanding and decoding a command gives the lowering of the decoded command. */
  lemma ExpansionIsLowering(layout: Layout, m: ModuleId, cmd: Command, c: Command)
    requires Relocated(layout, m, cmd, c) && B.CleanArguments(cmd)
    requires B.Decode(cmd) != B.Unsupported && Named(layout, m, B.Decode(cmd))
    ensures DecodeAll(Expansion(c)) == Lower(layout, m, B.Decode(cmd), c.arg0.data)
  {
    if B.BinaryMeaning(cmd.code).Some? || B.UnaryMeaning(cmd.code).Some? {
      TableKeepsMeaning(cmd.code);
      NamesNeedReference(layout, m, cmd);
      ArithmeticIsLowering(layout, m, cmd, c);
    } else if B.ComparisonMeaning(cmd.code).Some? {
      ComparisonIsSpelled(cmd.code);
      NamesNeedReference(layout, m, cmd);
      ComparisonIsLowering(layout, m, cmd, c);
    } else {
      OtherIsLowering(layout, m, cmd, c);
    }
  }

  // ----- one byte step, in as many VM turns as the command has operations -----

  ghost predicate Matches(l: Link, bo: Outcome<B.Config>, vo: Outcome<V.VMState>) {
    match bo
    case Next(b) => vo.Next? && Related(l, b, vo.state)
    case Fault(e) => vo == Fault(e)
  }

  /** Command pc, lowered, is about to run. */
  ghost predicate Setting(l: Link, b: B.Config, v: V.VMState, m: ModuleId, i: B.Instr, width: nat) {
    && Related(l, b, v) && b.pc < |l.program|
    && Pos(l.cs, b.pc + 1) == v.ip + width
    && B.Supported(l.layout, l.program, m, i)
  }

  lemma ConstantsStay(layout: Layout, space: Space, mem: Memory, mem': Memory)
    requires ConstantsLoaded(layout, space, mem)
    requires |mem'| == |mem| && mem'[..space.stackStart] == mem[..space.stackStart]
    ensures ConstantsLoaded(layout, space, mem')
  {
    forall k | 0 <= k < |layout.constants|
      ensures var a, n := layout.constantAddresses[k], |layout.constants[k]|;
              a + n <= space.stackStart && mem'[a..a + n] == layout.constants[k]
    {
      var a, n := layout.constantAddresses[k], |layout.constants[k]|;
      assert mem[a..a + n] == mem[..space.stackStart][a..a + n];
      assert mem'[a..a + n] == mem'[..space.stackStart][a..a + n];
    }
  }

  /** A constant is read from the read-only data as from the constants table. */
  lemma ConstantLoad(layout: Layout, space: Space, mem: Memory, k: nat, size: nat)
    requires SpaceOk(space) && |mem| == space.end && ConstantsLoaded(layout, space, mem)
    requires k < |layout.constants| && size <= |layout.constants[k]| && size <= 8
    ensures Load(mem, space.heapStart, layout.constantAddresses[k], size) == Next(ReadBytes(layout.constants[k], 0, size))
  {
    var a, n := layout.constantAddresses[k], |layout.constants[k]|;
    assert mem[a..a + n][..size] == mem[a..a + size];
    assert layout.constants[k][0..0 + size] == layout.constants[k][..size];
  }

  /** The state after a turn that changed one register. */
  function AfterPut(v: V.VMState, r: Word, x: Word): V.VMState
    requires r < |v.regs|
  {
    v.(flags := v.flags.(jumped := false), regs := v.regs[r := x], ip := v.ip + 1)
  }

  function AfterMem(v: V.VMState, mem: Memory): V.VMState {
    v.(flags := v.flags.(jumped := false), mem := mem, ip := v.ip + 1)
  }

  // ----- single turns -----

  lemma NumberTurn(space: Space, v: V.VMState, d: Word, x: Word)
    requires V.StateOk(space, v) && d < V.TOTAL_REGISTERS
    ensures V.Turn(space, V.Number(d, x), v) == Next(AfterPut(v, d, x))
  {
  }

  lemma MoveTurn(space: Space, v: V.VMState, d: Word, a: Word)
    requires V.StateOk(space, v) && d < V.TOTAL_REGISTERS && a < V.TOTAL_REGISTERS
    ensures V.Turn(space, V.Move(d, a), v) == Next(AfterPut(v, d, v.regs[a]))
  {
  }

  lemma BinaryTurn(space: Space, v: V.VMState, op: BinaryOp, d: Word, a: Word, b: Word)
    requires V.StateOk(space, v) && d < V.TOTAL_REGISTERS && a < V.TOTAL_REGISTERS && b < V.TOTAL_REGISTERS
    ensures V.Turn(space, V.Binary(op, d, a, b), v)
         == match EvalBinary(op, v.regs[a], v.regs[b]) { case Some(x) => Next(AfterPut(v, d, x)) case None => Fault(ZeroDivision) }
  {
    hide EvalBinary;
  }

  /** What a load leaves. */
  function AfterLoad(v: V.VMState, d: Word, x: Outcome<Word>): Outcome<V.VMState>
    requires d < |v.regs|
  {
    match x
    case Next(w) => Next(AfterPut(v, d, w))
    case Fault(e) => Fault(e)
  }

  function AfterStore(v: V.VMState, x: Outcome<Memory>): Outcome<V.VMState> {
    match x
    case Next(mem) => Next(AfterMem(v, mem))
    case Fault(e) => Fault(e)
  }

  lemma JumpTurn(space: Space, v: V.VMState, test: V.JumpTest, target: Word, r: Word)
    requires V.StateOk(space, v) && r < V.TOTAL_REGISTERS
    ensures V.Turn(space, V.Jump(test, target, r), v)
         == Next(if V.Taken(test, v.regs[r]) then v.(ip := target, flags := v.flags.(jumped := true))
                 else v.(ip := v.ip + 1, flags := v.flags.(jumped := false)))
  {
  }

  lemma LoadByTurn(space: Space, v: V.VMState, d: Word, a: Word, size: Word)
    requires V.StateOk(space, v) && d < V.TOTAL_REGISTERS && a < V.TOTAL_REGISTERS
    ensures V.Turn(space, V.LoadBy(d, a, size), v) == AfterLoad(v, d, LoadByAddress(space, v.mem, v.regs[a], size))
  {
    hide LoadByAddress;
  }

  lemma LoadLocalTurn(space: Space, v: V.VMState, d: Word, address: Word, size: Word)
    requires V.StateOk(space, v) && d < V.TOTAL_REGISTERS && v.regs[V.FP] == 0
    ensures V.Turn(space, V.LoadLocal(d, address, size), v) == AfterLoad(v, d, Load(v.mem, space.heapStart, address, size))
  {
    hide Load;
  }

  lemma LoadAbsoluteTurn(space: Space, v: V.VMState, d: Word, address: Word, size: Word)
    requires V.StateOk(space, v) && d < V.TOTAL_REGISTERS
    ensures V.Turn(space, V.LoadAbsolute(d, address, size), v) == AfterLoad(v, d, Load(v.mem, space.heapStart, address, size))
  {
    hide Load;
  }

  lemma StoreByTurn(space: Space, v: V.VMState, a: Word, d: Word, size: Word)
    requires V.StateOk(space, v) && d < V.TOTAL_REGISTERS && a < V.TOTAL_REGISTERS
    ensures V.Turn(space, V.StoreBy(a, d, size), v) == AfterStore(v, StoreByAddress(space, v.mem, v.regs[d], v.regs[a], size))
  {
    hide StoreByAddress;
  }

  lemma StoreLocalTurn(space: Space, v: V.VMState, a: Word, address: Word, size: Word)
    requires V.StateOk(space, v) && a < V.TOTAL_REGISTERS && v.regs[V.FP] == 0
    ensures V.Turn(space, V.StoreLocalAt(a, address, size), v) == AfterStore(v, StoreLocal(space, v.mem, address, v.regs[a], size))
  {
    hide StoreLocal;
  }

  lemma CopyTurns(space: Space, v: V.VMState, x: Word, y: Word, z: Word)
    requires V.StateOk(space, v)
    ensures V.Turn(space, V.CopyNumbers(x, y, z), v) == AfterStore(v, Copy(space, v.mem, x, y, z))
    ensures x < V.TOTAL_REGISTERS && y < V.TOTAL_REGISTERS && z < V.TOTAL_REGISTERS ==>
              V.Turn(space, V.CopyRegisters(x, y, z), v) == AfterStore(v, Copy(space, v.mem, v.regs[x], v.regs[y], v.regs[z]))
  {
    hide Copy;
  }

  lemma PutRelated(l: Link, b: B.Config, v: V.VMState, r: Word, x: Word)
    requires Related(l, b, v) && b.pc < |l.program| && Pos(l.cs, b.pc + 1) == v.ip + 1 && B.General(r)
    ensures Related(l, B.SetReg(b, r, x), AfterPut(v, r, x))
  {
  }

  lemma MemRelated(l: Link, b: B.Config, v: V.VMState, mem: Memory)
    requires Related(l, b, v) && b.pc < |l.program| && Pos(l.cs, b.pc + 1) == v.ip + 1
    requires |mem| == |b.mem| && mem[..l.space.stackStart] == b.mem[..l.space.stackStart]
    ensures Related(l, b.(mem := mem, pc := b.pc + 1), AfterMem(v, mem))
  {
    ConstantsStay(l.layout, l.space, b.mem, mem);
  }

  /** What the two machines agree on before a step. */
  lemma Agree(l: Link, b: B.Config, v: V.VMState)
    requires Related(l, b, v)
    ensures B.ConfigOk(l.space, b) && V.StateOk(l.space, v)
    ensures v.regs[..B.GENERAL_REGISTERS] == b.regs && v.mem == b.mem && v.output == b.output && v.regs[V.FP] == 0
    ensures ConstantsLoaded(l.layout, l.space, b.mem)
  {
  }

  lemma UnaryStep(l: Link, b: B.Config, v: V.VMState, m: ModuleId, i: B.Instr)
    requires Setting(l, b, v, m, i, 1) && i.Unary?
    ensures Matches(l, B.StepInstr(l.layout, l.space, l.program, m, i, b),
                    V.Turn(l.space, Lower(l.layout, m, i, 0)[0], v))
  {
    hide Related, EvalUnary;
    Agree(l, b, v);
    assert b.regs[i.a] == v.regs[i.a];
    PutRelated(l, b, v, i.d, EvalUnary(i.uop, b.regs[i.a]));
  }

  lemma BinaryStep(l: Link, b: B.Config, v: V.VMState, m: ModuleId, i: B.Instr)
    requires Setting(l, b, v, m, i, 1) && i.Binary?
    ensures Matches(l, B.StepInstr(l.layout, l.space, l.program, m, i, b),
                    V.Turn(l.space, Lower(l.layout, m, i, 0)[0], v))
  {
    hide Related, EvalBinary, V.Turn;
    Agree(l, b, v);
    assert b.regs[i.a] == v.regs[i.a] && b.regs[i.b] == v.regs[i.b];
    BinaryTurn(l.space, v, i.op, i.d, i.a, i.b);
    var x := EvalBinary(i.op, b.regs[i.a], b.regs[i.b]);
    if x.Some? {
      PutRelated(l, b, v, i.d, x.value);
    }
  }

  lemma ArithmeticStep(l: Link, b: B.Config, v: V.VMState, m: ModuleId, i: B.Instr)
    requires Setting(l, b, v, m, i, 1) && (i.Binary? || i.Unary?)
    ensures Matches(l, B.StepInstr(l.layout, l.space, l.program, m, i, b),
                    V.Turn(l.space, Lower(l.layout, m, i, 0)[0], v))
  {
    hide Related, B.StepInstr, V.Turn, Matches;
    if i.Binary? {
      BinaryStep(l, b, v, m, i);
    } else {
      UnaryStep(l, b, v, m, i);
    }
  }

  lemma MoveStep(l: Link, b: B.Config, v: V.VMState, m: ModuleId, i: B.Instr)
    requires Setting(l, b, v, m, i, 1) && (i.Move? || i.Number? || i.AddressOf? || i.ConstantAddress?)
    ensures Matches(l, B.StepInstr(l.layout, l.space, l.program, m, i, b),
                    V.Turn(l.space, Lower(l.layout, m, i, 0)[0], v))
  {
    hide Related, V.Turn;
    Agree(l, b, v);
    if i.Move? {
      assert b.regs[i.a] == v.regs[i.a];
      MoveTurn(l.space, v, i.d, i.a);
      PutRelated(l, b, v, i.d, b.regs[i.a]);
    } else {
      var x := match i {
        case Number(_, n) => n
        case AddressOf(place, _) => B.PlaceAddress(l.layout, m, place)
        case ConstantAddress(constant, _) => l.layout.constantAddresses[constant.data]
      };
      NumberTurn(l.space, v, i.d, x);
      PutRelated(l, b, v, i.d, x);
    }
  }

  lemma CallStep(l: Link, b: B.Config, v: V.VMState, m: ModuleId, i: B.Instr)
    requires Setting(l, b, v, m, i, 1) && (i.Retype? || i.Call?)
    ensures Matches(l, B.StepInstr(l.layout, l.space, l.program, m, i, b),
                    V.Turn(l.space, Lower(l.layout, m, i, 0)[0], v))
  {
    hide ConstantsLoaded, LinkOk, Pos;
    if i.Call? && i.call == 4 {
      PutRelated(l, b, v, i.a, 0);
    }
  }

  lemma LoadInstr(l: Link, b: B.Config, m: ModuleId, i: B.Instr)
    requires B.ConfigOk(l.space, b) && B.Supported(l.layout, l.program, m, i) && (i.LoadBy? || i.LoadConstant? || i.LoadPlace?)
    ensures i.d < |b.regs|
    ensures B.StepInstr(l.layout, l.space, l.program, m, i, b) == B.SetRegFrom(b, i.d, LoadedValue(l, b, m, i))
  {
    hide Load, LoadByAddress, ReadBytes;
  }

  lemma LoadTurn(l: Link, b: B.Config, v: V.VMState, m: ModuleId, i: B.Instr)
    requires Setting(l, b, v, m, i, 1) && (i.LoadBy? || i.LoadConstant? || i.LoadPlace?) && B.ConfigOk(l.space, b) && V.StateOk(l.space, v)
    ensures i.d < |v.regs|
    ensures V.Turn(l.space, Lower(l.layout, m, i, 0)[0], v) == AfterLoad(v, i.d, LoadedValue(l, b, m, i))
  {
    hide Related, Load, LoadByAddress, ReadBytes, B.StepInstr, V.Turn, AfterLoad;
    Agree(l, b, v);
    if i.LoadBy? {
      LoadByTurn(l.space, v, i.d, i.a, i.size);
      assert b.regs[i.a] == v.regs[i.a];
    } else if i.LoadConstant? {
      LoadAbsoluteTurn(l.space, v, i.d, l.layout.constantAddresses[i.constant.data], i.size);
      ConstantLoad(l.layout, l.space, b.mem, i.constant.data, i.size);
    } else {
      LoadLocalTurn(l.space, v, i.d, B.PlaceAddress(l.layout, m, i.place), i.size);
    }
  }

  lemma LoadStep(l: Link, b: B.Config, v: V.VMState, m: ModuleId, i: B.Instr)
    requires Setting(l, b, v, m, i, 1) && (i.LoadBy? || i.LoadConstant? || i.LoadPlace?)
    ensures Matches(l, B.StepInstr(l.layout, l.space, l.program, m, i, b),
                    V.Turn(l.space, Lower(l.layout, m, i, 0)[0], v))
  {
    hide Related, B.StepInstr, V.Turn, Lower, LoadedValue;
    Agree(l, b, v);
    LoadInstr(l, b, m, i);
    LoadTurn(l, b, v, m, i);
    var x := LoadedValue(l, b, m, i);
    if x.Next? {
      PutRelated(l, b, v, i.d, x.state);
    }
  }

  function LoadedValue(l: Link, b: B.Config, m: ModuleId, i: B.Instr): Outcome<Word>
    requires B.ConfigOk(l.space, b) && B.Supported(l.layout, l.program, m, i)
    requires i.LoadBy? || i.LoadConstant? || i.LoadPlace?
  {
    match i
    case LoadBy(a, _, size) => LoadByAddress(l.space, b.mem, b.regs[a], size)
    case LoadConstant(constant, _, size) => Next(ReadBytes(l.layout.constants[constant.data], 0, size))
    case LoadPlace(place, _, size) => Load(b.mem, l.space.heapStart, B.PlaceAddress(l.layout, m, place), size)
  }

  lemma StoreInstr(l: Link, b: B.Config, m: ModuleId, i: B.Instr)
    requires B.ConfigOk(l.space, b) && B.Supported(l.layout, l.program, m, i)
    requires i.StoreBy? || i.StorePlace? || i.CopyRegisters? || i.CopyNumbers?
    ensures B.StepInstr(l.layout, l.space, l.program, m, i, b) == B.SetMem(b, StoredMemory(l, b, m, i))
  {
    hide Store, StoreLocal, StoreByAddress, Copy;
  }

  lemma StoreTurn(l: Link, b: B.Config, v: V.VMState, m: ModuleId, i: B.Instr)
    requires Setting(l, b, v, m, i, 1) && (i.StoreBy? || i.StorePlace? || i.CopyRegisters? || i.CopyNumbers?)
    requires B.ConfigOk(l.space, b) && V.StateOk(l.space, v)
    ensures V.Turn(l.space, Lower(l.layout, m, i, 0)[0], v) == AfterStore(v, StoredMemory(l, b, m, i))
  {
    hide Related, Store, StoreLocal, StoreByAddress, Copy, B.StepInstr, V.Turn, AfterStore;
    Agree(l, b, v);
    assert forall r :: 0 <= r < B.GENERAL_REGISTERS ==> v.regs[..B.GENERAL_REGISTERS][r] == v.regs[r];
    if i.StoreBy? {
      StoreByTurn(l.space, v, i.a, i.d, i.size);
    } else if i.StorePlace? {
      StoreLocalTurn(l.space, v, i.a, B.PlaceAddress(l.layout, m, i.place), i.size);
    } else if i.CopyRegisters? {
      CopyTurns(l.space, v, i.d, i.a, i.b);
    } else {
      CopyTurns(l.space, v, i.x, i.y, i.z);
    }
  }

  lemma StoreStep(l: Link, b: B.Config, v: V.VMState, m: ModuleId, i: B.Instr)
    requires Setting(l, b, v, m, i, 1) && (i.StoreBy? || i.StorePlace? || i.CopyRegisters? || i.CopyNumbers?)
    ensures Matches(l, B.StepInstr(l.layout, l.space, l.program, m, i, b),
                    V.Turn(l.space, Lower(l.layout, m, i, 0)[0], v))
  {
    hide Related, B.StepInstr, V.Turn, Lower, StoredMemory;
    Agree(l, b, v);
    StoreInstr(l, b, m, i);
    StoreTurn(l, b, v, m, i);
    StoredKeepsReadOnly(l, b, m, i);
    var x := StoredMemory(l, b, m, i);
    if x.Next? {
      MemRelated(l, b, v, x.state);
    }
  }

  function StoredMemory(l: Link, b: B.Config, m: ModuleId, i: B.Instr): Outcome<Memory>
    requires B.ConfigOk(l.space, b) && B.Supported(l.layout, l.program, m, i)
    requires i.StoreBy? || i.StorePlace? || i.CopyRegisters? || i.CopyNumbers?
  {
    match i
    case StoreBy(d, a, size) => StoreByAddress(l.space, b.mem, b.regs[d], b.regs[a], size)
    case StorePlace(place, a, size) =>
      StoreLocal(l.space, b.mem, B.PlaceAddress(l.layout, m, place), b.regs[a], size)
    case CopyRegisters(d, a, c) => Copy(l.space, b.mem, b.regs[d], b.regs[a], b.regs[c])
    case CopyNumbers(x, y, z) => Copy(l.space, b.mem, x, y, z)
  }

  lemma StoredKeepsReadOnly(l: Link, b: B.Config, m: ModuleId, i: B.Instr)
    requires B.ConfigOk(l.space, b) && B.Supported(l.layout, l.program, m, i)
    requires i.StoreBy? || i.StorePlace? || i.CopyRegisters? || i.CopyNumbers?
    ensures var x := StoredMemory(l, b, m, i);
            x.Next? ==> |x.state| == |b.mem| && x.state[..l.space.stackStart] == b.mem[..l.space.stackStart]
  {
    match i {
      case StoreBy(d, a, size) => StoreKeepsReadOnly(l.space, b.mem, b.regs[d], b.regs[a], size);
      case StorePlace(place, a, size) =>
        StoreKeepsReadOnly(l.space, b.mem, B.PlaceAddress(l.layout, m, place), b.regs[a], size);
      case CopyRegisters(d, a, c) => CopyKeepsReadOnly(l.space, b.mem, b.regs[d], b.regs[a], b.regs[c]);
      case CopyNumbers(x, y, z) => CopyKeepsReadOnly(l.space, b.mem, x, y, z);
    }
  }

  /** A jump goes to the position of its label's command. */
  lemma JumpStep(l: Link, b: B.Config, v: V.VMState, m: ModuleId, i: B.Instr, target: Word)
    requires Setting(l, b, v, m, i, 1) && i.Jump? && |l.cs| == |l.program|
    requires target == Pos(l.cs, B.FindLabel(l.program, i.target))
    ensures Matches(l, B.StepInstr(l.layout, l.space, l.program, m, i, b),
                    V.Turn(l.space, V.Jump(TestOf(i.test), target, i.r), v))
  {
    hide Related, V.Turn, Pos;
    Agree(l, b, v);
    assert b.regs[i.r] == v.regs[i.r];
    JumpTurn(l.space, v, TestOf(i.test), target, i.r);
    JumpRelated(l, b, v, if B.Taken(i.test, b.regs[i.r]) then B.FindLabel(l.program, i.target) else b.pc + 1);
  }

  /** Where a jump leads, taken or not. */
  lemma JumpRelated(l: Link, b: B.Config, v: V.VMState, pc: nat)
    requires Related(l, b, v) && b.pc < |l.program| && pc <= |l.program|
    ensures forall ip :: ip == Pos(l.cs, pc) ==>
              Related(l, b.(pc := pc), v.(flags := v.flags.(jumped := false), ip := ip))
              && Related(l, b.(pc := pc), v.(flags := v.flags.(jumped := true), ip := ip))
  {
  }

  /** The flags asked for after a comparison tell its truth, up to the final negation. */
  lemma FlagsTellTruth(f: V.Flags, rel: Relation, signed: bool, a: Word, b: Word)
    requires !f.jumped
    ensures var (flag1, flag2, negate) := FlagOf(rel);
            var g := V.SetComparison(f, signed, a, b);
            (V.FlagHit(g, flag1) || V.FlagHit(g, flag2)) == (Compare(rel, signed, a, b) != negate)
  {
    assert V.HasBit(1, 0) && !V.HasBit(1, 1) && !V.HasBit(1, 2);
    assert !V.HasBit(2, 0) && V.HasBit(2, 1) && !V.HasBit(2, 2);
    assert !V.HasBit(4, 0) && !V.HasBit(4, 1) && V.HasBit(4, 2);
    assert !V.HasBit(0, 0) && !V.HasBit(0, 1) && !V.HasBit(0, 2);
  }

  /** Two turns: set the flags, then fetch the ones asked for. */
  lemma CompareTurns(l: Link, v: V.VMState, k: B.Comparison, d: Word, a: Word, b: Word)
    requires V.StateOk(l.space, v) && B.General(d) && B.General(a) && B.General(b)
    ensures var (flag1, flag2, negate) := FlagOf(k.rel);
            var g := V.SetComparison(v.flags.(jumped := false), k.signed, v.regs[a], v.regs[b]);
            var v1 := v.(ip := v.ip + 1, flags := g);
            var truth := Compare(k.rel, k.signed, v.regs[a], v.regs[b]);
            && V.Turn(l.space, V.SetFlags(k.signed, a, b), v) == Next(v1)
            && V.Turn(l.space, V.GetFlag(d, flag1, flag2), v1)
               == Next(v1.(ip := v.ip + 2, regs := v.regs[d := Bool(truth != negate)]))
  {
    FlagsTellTruth(v.flags.(jumped := false), k.rel, k.signed, v.regs[a], v.regs[b]);
    var g := V.SetComparison(v.flags.(jumped := false), k.signed, v.regs[a], v.regs[b]);
    assert g.(jumped := false) == g;
  }

  /** The third turn of an inequality. */
  lemma NegateTurn(space: Space, v: V.VMState, d: Word, x: bool)
    requires V.StateOk(space, v) && B.General(d) && v.regs[d] == Bool(x) && !v.flags.jumped
    ensures V.Turn(space, V.Unary(LogicNot, d, d), v) == Next(v.(ip := v.ip + 1, regs := v.regs[d := Bool(!x)]))
  {
    assert v.flags.(jumped := false) == v.flags;
  }

  lemma StackRelated(l: Link, b: B.Config, v: V.VMState, x: Word, s: Word)
    requires Related(l, b, v) && b.pc < |l.program| && Pos(l.cs, b.pc + 1) == v.ip + 2
    ensures v.regs[V.SP] == b.sp
    ensures Related(l, b.(sp := s, pc := b.pc + 1),
                    v.(flags := v.flags.(jumped := false), regs := v.regs[V.A0 := x][V.SP := s], ip := v.ip + 2))
  {
  }

  /** Moving the stack pointer goes through the scratch register A0. */
  lemma StackTurns(l: Link, b: B.Config, v: V.VMState, m: ModuleId, i: B.Instr)
    requires Setting(l, b, v, m, i, 2) && (i.Grow? || i.Shrink?)
    ensures var ops := Lower(l.layout, m, i, 0);
            var v1 := V.Turn(l.space, ops[0], v);
            && v1.Next? && V.StateOk(l.space, v1.state) && v1.state.ip == v.ip + 1
            && Matches(l, B.StepInstr(l.layout, l.space, l.program, m, i, b), V.Turn(l.space, ops[1], v1.state))
  {
    hide Related, V.Turn, EvalBinary, ConstantsLoaded, LinkOk, Pos;
    Agree(l, b, v);
    var x := i.x;
    var s := Wrap(if i.Grow? then b.sp + x else b.sp - x);
    NumberTurn(l.space, v, V.A0, x);
    BinaryTurn(l.space, AfterPut(v, V.A0, x), if i.Grow? then AddUInt else SubUInt, V.SP, V.SP, V.A0);
    StackSum(b.sp, x);
    StackRelated(l, b, v, x, s);
  }

  lemma StackSum(a: Word, b: Word)
    ensures EvalBinary(AddUInt, a, b) == Some(Wrap(a + b)) && EvalBinary(SubUInt, a, b) == Some(Wrap(a - b))
  {
  }
}
