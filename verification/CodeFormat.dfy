/** Code object files: a header and one 36-byte record for every byte command. */
module CodeFormat {
  import opened Words
  import opened ByteCode
  import opened Buffers
  import opened ObjectFormat
  import opened ObjectRoundTrip

  // ----- numbers of operations and argument sources -----

  /** Operation codes 0 to 22 are those of arithmetic; the others follow. */
  function OpNumber(op: ByteOpCode): Byte {
    match op
    case NOP => 0 case COMP_FLG => 1 case SECTION_ARITHMETIC_ST => 2 case ADDR => 3
    case SUBR => 4 case DIVR => 5 case MULR => 6 case NEGR => 7
    case EXPR => 8 case ADDI => 9 case SUBI => 10 case DIVI => 11
    case MULI => 12 case NEGI => 13 case MODI => 14 case EXPI => 15
    case ADDU => 16 case SUBU => 17 case DIVU => 18 case MULU => 19
    case MODU => 20 case EXPU => 21 case SECTION_ARITHMETIC_ED => 22
    case _ => LogicNumber(op)
  }

  /** Operation codes 23 to 52: logic and comparison. */
  function LogicNumber(op: ByteOpCode): (b: Byte)
    ensures b >= 23
  {
    match op
    case SECTION_LOGIC_ST => 23 case AND => 24 case OR => 25 case NOT => 26
    case BIT_OR => 27 case BIT_NOT => 28 case BIT_AND => 29 case BIT_OFFSET_LEFT => 30
    case BIT_OFFSET_RIGHT => 31 case SECTION_LOGIC_ED => 32 case SECTION_COMPARING_ST => 33 case EQUALI => 34
    case NOT_EQUALI => 35 case GREATERI => 36 case LESSI => 37 case EGREATERI => 38
    case ELESSI => 39 case EQUALU => 40 case NOT_EQUALU => 41 case GREATERU => 42
    case LESSU => 43 case EGREATERU => 44 case ELESSU => 45 case EQUALR => 46
    case NOT_EQUALR => 47 case GREATERR => 48 case LESSR => 49 case EGREATERR => 50
    case ELESSR => 51 case SECTION_COMPARING_ED => 52
    case _ => MemoryNumber(op)
  }

  /** Operation codes 53 to 71: memory. */
  function MemoryNumber(op: ByteOpCode): (b: Byte)
    ensures b >= 53
  {
    match op
    case SECTION_MEMORY_ST => 53 case MOVRR => 54 case MOVRI => 55 case STACK_UP => 56
    case STACK_DOWN => 57 case PUSH => 58 case POP => 59 case LEA_STATIC => 60
    case LEA_DYNAMIC => 61 case LOAD_DYNAMIC => 62 case STORE_DYNAMIC => 63 case LOAD_CONST_STATIC => 64
    case LEA_CONST => 65 case LOAD_STATIC => 66 case STORE_STATIC => 67 case ALLOC => 68
    case FREE => 69 case COPY_DYNAMIC => 70 case COPY_STATIC => 71
    case _ => ControlNumber(op)
  }

  /** Operation codes 72 to 92: control flow and the rest. */
  function ControlNumber(op: ByteOpCode): (b: Byte)
    ensures b >= 72
  {
    match op
    case SECTION_MEMORY_ED => 72 case SECTION_CONTROL_FLOW_ST => 73 case JMP_LABEL => 74 case JMP => 75
    case JMPCV => 76 case JMPCNV => 77 case CALL => 78 case RET => 79
    case EXT => 80 case SECTION_CONTROL_FLOW_ED => 81 case SECTION_SPECIAL_ST => 82 case TC_ITR => 83
    case TC_RTI => 84 case TC_UTR => 85 case TC_UTI => 86 case TC_RTU => 87
    case TC_ITU => 88 case SYMBOL_LABEL => 89 case MOV_FROM_SR => 90 case SPEC_CALL => 91
    case SECTION_SPECIAL_ED => 92
    case _ => 255
  }

  function ArithmeticOf(b: Byte): Option<ByteOpCode> {
    match b
    case 0 => Some(NOP) case 1 => Some(COMP_FLG) case 2 => Some(SECTION_ARITHMETIC_ST) case 3 => Some(ADDR)
    case 4 => Some(SUBR) case 5 => Some(DIVR) case 6 => Some(MULR) case 7 => Some(NEGR)
    case 8 => Some(EXPR) case 9 => Some(ADDI) case 10 => Some(SUBI) case 11 => Some(DIVI)
    case 12 => Some(MULI) case 13 => Some(NEGI) case 14 => Some(MODI) case 15 => Some(EXPI)
    case 16 => Some(ADDU) case 17 => Some(SUBU) case 18 => Some(DIVU) case 19 => Some(MULU)
    case 20 => Some(MODU) case 21 => Some(EXPU) case 22 => Some(SECTION_ARITHMETIC_ED)
    case _ => None
  }

  function LogicOf(b: Byte): Option<ByteOpCode> {
    match b
    case 23 => Some(SECTION_LOGIC_ST) case 24 => Some(AND) case 25 => Some(OR) case 26 => Some(NOT)
    case 27 => Some(BIT_OR) case 28 => Some(BIT_NOT) case 29 => Some(BIT_AND) case 30 => Some(BIT_OFFSET_LEFT)
    case 31 => Some(BIT_OFFSET_RIGHT) case 32 => Some(SECTION_LOGIC_ED) case 33 => Some(SECTION_COMPARING_ST) case 34 => Some(EQUALI)
    case 35 => Some(NOT_EQUALI) case 36 => Some(GREATERI) case 37 => Some(LESSI) case 38 => Some(EGREATERI)
    case 39 => Some(ELESSI) case 40 => Some(EQUALU) case 41 => Some(NOT_EQUALU) case 42 => Some(GREATERU)
    case 43 => Some(LESSU) case 44 => Some(EGREATERU) case 45 => Some(ELESSU) case 46 => Some(EQUALR)
    case 47 => Some(NOT_EQUALR) case 48 => Some(GREATERR) case 49 => Some(LESSR) case 50 => Some(EGREATERR)
    case 51 => Some(ELESSR) case 52 => Some(SECTION_COMPARING_ED)
    case _ => None
  }

  function MemoryOf(b: Byte): Option<ByteOpCode> {
    match b
    case 53 => Some(SECTION_MEMORY_ST) case 54 => Some(MOVRR) case 55 => Some(MOVRI) case 56 => Some(STACK_UP)
    case 57 => Some(STACK_DOWN) case 58 => Some(PUSH) case 59 => Some(POP) case 60 => Some(LEA_STATIC)
    case 61 => Some(LEA_DYNAMIC) case 62 => Some(LOAD_DYNAMIC) case 63 => Some(STORE_DYNAMIC) case 64 => Some(LOAD_CONST_STATIC)
    case 65 => Some(LEA_CONST) case 66 => Some(LOAD_STATIC) case 67 => Some(STORE_STATIC) case 68 => Some(ALLOC)
    case 69 => Some(FREE) case 70 => Some(COPY_DYNAMIC) case 71 => Some(COPY_STATIC)
    case _ => None
  }

  function ControlOf(b: Byte): Option<ByteOpCode> {
    match b
    case 72 => Some(SECTION_MEMORY_ED) case 73 => Some(SECTION_CONTROL_FLOW_ST) case 74 => Some(JMP_LABEL) case 75 => Some(JMP)
    case 76 => Some(JMPCV) case 77 => Some(JMPCNV) case 78 => Some(CALL) case 79 => Some(RET)
    case 80 => Some(EXT) case 81 => Some(SECTION_CONTROL_FLOW_ED) case 82 => Some(SECTION_SPECIAL_ST) case 83 => Some(TC_ITR)
    case 84 => Some(TC_RTI) case 85 => Some(TC_UTR) case 86 => Some(TC_UTI) case 87 => Some(TC_RTU)
    case 88 => Some(TC_ITU) case 89 => Some(SYMBOL_LABEL) case 90 => Some(MOV_FROM_SR) case 91 => Some(SPEC_CALL)
    case 92 => Some(SECTION_SPECIAL_ED)
    case _ => None
  }

  function OpOf(b: Byte): Option<ByteOpCode> {
    if b < 23 then ArithmeticOf(b) else if b < 53 then LogicOf(b) else if b < 72 then MemoryOf(b) else ControlOf(b)
  }

  function SourceNumber(s: Source): Byte {
    match s
    case Register => 1
    case MemoryAddress => 2
    case Immediate => 3
    case Constant => 4
    case Symbol => 5
  }

  function SourceOf(b: Byte): Option<Source> {
    if b == 1 then Some(Register)
    else if b == 2 then Some(MemoryAddress)
    else if b == 3 then Some(Immediate)
    else if b == 4 then Some(Constant)
    else if b == 5 then Some(Symbol)
    else None
  }

  lemma ArithmeticRoundTrip(op: ByteOpCode)
    ensures 0 <= OpNumber(op) < 23 ==> ArithmeticOf(OpNumber(op)) == Some(op)
  {
    hide LogicNumber, OpNumber, ArithmeticOf;
    RealRoundTrip(op);
    IntegerRoundTrip(op);
  }

  lemma RealRoundTrip(op: ByteOpCode)
    ensures OpNumber(op) < 12 ==> ArithmeticOf(OpNumber(op)) == Some(op)
  {
    hide LogicNumber;
  }

  lemma IntegerRoundTrip(op: ByteOpCode)
    ensures 12 <= OpNumber(op) < 23 ==> ArithmeticOf(OpNumber(op)) == Some(op)
  {
    hide LogicNumber;
  }

  lemma LogicRoundTrip(op: ByteOpCode)
    ensures 23 <= LogicNumber(op) < 53 ==> LogicOf(LogicNumber(op)) == Some(op)
  {
    hide MemoryNumber, LogicNumber, LogicOf;
    BitRoundTrip(op);
    ComparisonRoundTrip(op);
  }

  lemma BitRoundTrip(op: ByteOpCode)
    ensures LogicNumber(op) < 38 ==> LogicOf(LogicNumber(op)) == Some(op)
  {
    hide MemoryNumber;
  }

  lemma ComparisonRoundTrip(op: ByteOpCode)
    ensures 38 <= LogicNumber(op) < 53 ==> LogicOf(LogicNumber(op)) == Some(op)
  {
    hide MemoryNumber;
  }

  lemma MemoryRoundTrip(op: ByteOpCode)
    ensures 53 <= MemoryNumber(op) < 72 ==> MemoryOf(MemoryNumber(op)) == Some(op)
  {
    hide ControlNumber;
  }

  lemma ControlRoundTrip(op: ByteOpCode)
    ensures 72 <= ControlNumber(op) < 93 ==> ControlOf(ControlNumber(op)) == Some(op)
  {
  }

  lemma OpRoundTrip(op: ByteOpCode)
    ensures OpOf(OpNumber(op)) == Some(op)
  {
    hide ArithmeticOf, LogicOf, MemoryOf, ControlOf;
    ArithmeticRoundTrip(op);
    LogicRoundTrip(op);
    MemoryRoundTrip(op);
    ControlRoundTrip(op);
  }

  // ----- what is written -----

  function ArgBytes(a: Arg): (s: seq<Byte>)
    ensures |s| == 9
  {
    [SourceNumber(a.source)] + LE(a.data, 8)
  }

  function CommandBytes(c: Command): (s: seq<Byte>)
    ensures |s| == COMMAND_SIZE
  {
    [OpNumber(c.code)] + ArgBytes(c.arg0) + ArgBytes(c.arg1) + ArgBytes(c.arg2) + LE(c.flags, 4) + LE(c.line, 4)
  }

  function CommandsBytes(commands: seq<Command>): (s: seq<Byte>)
    ensures |s| == COMMAND_SIZE * |commands|
  {
    if commands == [] then [] else CommandBytes(commands[0]) + CommandsBytes(commands[1..])
  }

  datatype CoState = CoState(version: Version, flags: nat, stackSize: Word, commands: seq<Command>)

  function CoPreamble(m: CoState): (s: seq<Byte>)
    ensures |s| == 27
  {
    CoMagic() + m.version + LE(m.flags, 2) + LE(COMMAND_SIZE * |m.commands|, 8) + LE(m.stackSize, 8)
  }

  function CoBytes(m: CoState): (s: seq<Byte>)
    ensures |s| == CO_HEADER_SIZE + COMMAND_SIZE * |m.commands|
  {
    PadTo(CoPreamble(m), CO_HEADER_SIZE) + CommandsBytes(m.commands)
  }

  // ----- what is read -----

  function ReadArg(b: seq<Byte>, i: nat): Option<Arg>
    requires i + 9 <= |b|
  {
    EightBytes(b, i + 1);
    var source :- SourceOf(b[i]);
    Some(Arg(ReadNat(b, i + 1, 8), source))
  }

  lemma FourBytes(b: seq<Byte>, i: nat)
    requires i + 4 <= |b|
    ensures ReadNat(b, i, 4) < 0x1_0000_0000
  {
    Pow256Of8();
  }

  /** A number that is no operation or no source leaves the record undefined. */
  function ReadCommand(b: seq<Byte>, i: nat): Option<Command>
    requires i + COMMAND_SIZE <= |b|
  {
    var op :- OpOf(b[i]);
    var arg0 :- ReadArg(b, i + 1);
    var arg1 :- ReadArg(b, i + 10);
    var arg2 :- ReadArg(b, i + 19);
    FourBytes(b, i + 28);
    FourBytes(b, i + 32);
    Some(Command(op, arg0, arg1, arg2, ReadNat(b, i + 28, 4), ReadNat(b, i + 32, 4)))
  }

  function ReadCommands(b: seq<Byte>, i: nat, end: nat): Option<Parsed<Command>>
    decreases end - i
  {
    if i >= end then Some(Parsed([], i))
    else if i + COMMAND_SIZE > |b| then None
    else
      var c :- ReadCommand(b, i);
      var rest :- ReadCommands(b, i + COMMAND_SIZE, end);
      Some(Cons(c, rest))
  }

  datatype CommandsPool = CommandsPool(version: Version, flags: nat, codeSize: nat, stackSize: nat, commands: seq<Command>)

  function ReadCo(b: seq<Byte>): Option<CommandsPool> {
    if |b| < CO_HEADER_SIZE || b[..MAGIC_SIZE] != CoMagic() then None
    else
      var codeSize := ReadNat(b, 11, 8);
      var p :- ReadCommands(b, CO_HEADER_SIZE, CO_HEADER_SIZE + codeSize);
      Some(CommandsPool(b[5..9], ReadNat(b, 9, 2), codeSize, ReadNat(b, 19, 8), p.items))
  }

  // ----- round trip -----

  lemma ArgRead(b: seq<Byte>, i: nat, a: Arg)
    requires At(b, i, ArgBytes(a))
    ensures i + 9 <= |b| && ReadArg(b, i) == Some(a)
  {
    AtSplit(b, i, [SourceNumber(a.source)], LE(a.data, 8));
    AtByte(b, i, SourceNumber(a.source));
    AtWord(b, i + 1, a.data);
  }

  lemma CommandRead(b: seq<Byte>, i: nat, c: Command)
    requires At(b, i, CommandBytes(c))
    ensures i + COMMAND_SIZE <= |b| && ReadCommand(b, i) == Some(c)
  {
    hide ArgBytes, ReadArg, ReadNat, OpNumber, OpOf;
    var op, x, y, z, f, l := [OpNumber(c.code)], ArgBytes(c.arg0), ArgBytes(c.arg1), ArgBytes(c.arg2), LE(c.flags, 4), LE(c.line, 4);
    AtSplit(b, i, op + x + y + z + f, l);
    AtSplit(b, i, op + x + y + z, f);
    AtSplit(b, i, op + x + y, z);
    AtSplit(b, i, op + x, y);
    AtSplit(b, i, op, x);
    AtByte(b, i, OpNumber(c.code));
    OpRoundTrip(c.code);
    ArgRead(b, i + 1, c.arg0);
    ArgRead(b, i + 10, c.arg1);
    ArgRead(b, i + 19, c.arg2);
    Pow256Of8();
    AtNat(b, i + 28, c.flags, 4);
    AtNat(b, i + 32, c.line, 4);
  }

  lemma {:induction false} CommandsRead(b: seq<Byte>, i: nat, commands: seq<Command>)
    requires At(b, i, CommandsBytes(commands))
    ensures var end := i + COMMAND_SIZE * |commands|; ReadCommands(b, i, end) == Some(Parsed(commands, end))
    decreases |commands|
  {
    hide CommandBytes, ReadCommand;
    if commands != [] {
      AtSplit(b, i, CommandBytes(commands[0]), CommandsBytes(commands[1..]));
      CommandRead(b, i, commands[0]);
      CommandsRead(b, i + COMMAND_SIZE, commands[1..]);
      assert [commands[0]] + commands[1..] == commands;
    }
  }

  /** A written code file gives back every operation, argument, flag word and line, and the sizes. */
  lemma CoRoundTrip(m: CoState)
    requires m.flags < 0x1_0000 && COMMAND_SIZE * |m.commands| < TWO64
    ensures ReadCo(CoBytes(m)) == Some(CommandsPool(m.version, m.flags, COMMAND_SIZE * |m.commands|, m.stackSize, m.commands))
  {
    hide CommandsBytes, ReadCommands, ReadNat, LE;
    var b, n := CoBytes(m), COMMAND_SIZE * |m.commands|;
    var pad := Zeros(CO_HEADER_SIZE - |CoPreamble(m)|);
    Whole(b);
    AtSplit(b, 0, CoPreamble(m) + pad, CommandsBytes(m.commands));
    AtSplit(b, 0, CoPreamble(m), pad);
    CommandsRead(b, CO_HEADER_SIZE, m.commands);
    var x := CoMagic() + m.version + LE(m.flags, 2);
    AtSplit(b, 0, x + LE(n, 8), LE(m.stackSize, 8));
    AtSplit(b, 0, x, LE(n, 8));
    AtSplit(b, 0, CoMagic() + m.version, LE(m.flags, 2));
    AtSplit(b, 0, CoMagic(), m.version);
    Pow256Of8();
    AtNat(b, 9, m.flags, 2);
    AtWord(b, 11, n);
    AtWord(b, 19, m.stackSize);
  }
}
