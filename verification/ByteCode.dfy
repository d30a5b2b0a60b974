/** Byte commands, as the compiler emits them and the linker reads them. */
module ByteCode {
  import opened Words

  datatype Option<+T> = None | Some(value: T) {
    predicate IsFailure() {
      None?
    }

    function PropagateFailure<U>(): Option<U>
      requires None?
    {
      Option.None
    }

    function Extract(): T
      requires Some?
    {
      value
    }
  }

  datatype ByteOpCode =
    | NOP | COMP_FLG
    | SECTION_ARITHMETIC_ST
    | ADDR | SUBR | DIVR | MULR | NEGR | EXPR
    | ADDI | SUBI | DIVI | MULI | NEGI | MODI | EXPI
    | ADDU | SUBU | DIVU | MULU | MODU | EXPU
    | SECTION_ARITHMETIC_ED
    | SECTION_LOGIC_ST
    | AND | OR | NOT | BIT_OR | BIT_NOT | BIT_AND | BIT_OFFSET_LEFT | BIT_OFFSET_RIGHT
    | SECTION_LOGIC_ED
    | SECTION_COMPARING_ST
    | EQUALI | NOT_EQUALI | GREATERI | LESSI | EGREATERI | ELESSI
    | EQUALU | NOT_EQUALU | GREATERU | LESSU | EGREATERU | ELESSU
    | EQUALR | NOT_EQUALR | GREATERR | LESSR | EGREATERR | ELESSR
    | SECTION_COMPARING_ED
    | SECTION_MEMORY_ST
    | MOVRR | MOVRI | STACK_UP | STACK_DOWN | PUSH | POP | LEA_STATIC | LEA_DYNAMIC
    | LOAD_DYNAMIC | STORE_DYNAMIC | LOAD_CONST_STATIC | LEA_CONST | LOAD_STATIC | STORE_STATIC
    | ALLOC | FREE | COPY_DYNAMIC | COPY_STATIC
    | SECTION_MEMORY_ED
    | SECTION_CONTROL_FLOW_ST
    | JMP_LABEL | JMP | JMPCV | JMPCNV | CALL | RET | EXT
    | SECTION_CONTROL_FLOW_ED
    | SECTION_SPECIAL_ST
    | TC_ITR | TC_RTI | TC_UTR | TC_UTI | TC_RTU | TC_ITU
    | SYMBOL_LABEL | MOV_FROM_SR | SPEC_CALL
    | SECTION_SPECIAL_ED

  /** Where an argument's number comes from. */
  datatype Source = Register | MemoryAddress | Immediate | Constant | Symbol

  datatype Arg = Arg(data: Word, source: Source)

  type Bits32 = x: nat | x < 0x1_0000_0000

  datatype Command = Command(code: ByteOpCode, arg0: Arg, arg1: Arg, arg2: Arg, flags: Bits32, line: Bits32)

  function NoArg(): Arg {
    Arg(0, Immediate)
  }

  function Cmd(code: ByteOpCode, arg0: Arg, arg1: Arg, arg2: Arg): Command {
    Command(code, arg0, arg1, arg2, 0, 0)
  }

  /** The sections of the operation codes, in the order in which the translator asks for them. */
  datatype Section = ArithmeticLogic | Comparing | ControlFlow | MemoryRegisters | Special | Outside

  function SectionOf(op: ByteOpCode): Section {
    match op
    case ADDR | SUBR | DIVR | MULR | NEGR | EXPR => ArithmeticLogic
    case ADDI | SUBI | DIVI | MULI | NEGI | MODI | EXPI => ArithmeticLogic
    case ADDU | SUBU | DIVU | MULU | MODU | EXPU => ArithmeticLogic
    case AND | OR | NOT | BIT_OR | BIT_NOT | BIT_AND | BIT_OFFSET_LEFT | BIT_OFFSET_RIGHT => ArithmeticLogic
    case EQUALI | NOT_EQUALI | GREATERI | LESSI | EGREATERI | ELESSI => Comparing
    case EQUALU | NOT_EQUALU | GREATERU | LESSU | EGREATERU | ELESSU => Comparing
    case EQUALR | NOT_EQUALR | GREATERR | LESSR | EGREATERR | ELESSR => Comparing
    case JMP_LABEL | JMP | JMPCV | JMPCNV | CALL | RET | EXT => ControlFlow
    case MOVRR | MOVRI | STACK_UP | STACK_DOWN | PUSH | POP | LEA_STATIC | LEA_DYNAMIC => MemoryRegisters
    case LOAD_DYNAMIC | STORE_DYNAMIC | LOAD_CONST_STATIC | LEA_CONST => MemoryRegisters
    case LOAD_STATIC | STORE_STATIC | ALLOC | FREE | COPY_DYNAMIC | COPY_STATIC => MemoryRegisters
    case TC_ITR | TC_RTI | TC_UTR | TC_UTI | TC_RTU | TC_ITU => Special
    case SYMBOL_LABEL | MOV_FROM_SR | SPEC_CALL => Special
    case _ => Outside
  }

  // ----- symbols and the memory layout a program is linked against -----

  datatype SymbolKind = UndefinedSymbol | VariableSymbol | TypeSymbol | FunctionSymbol | NamespaceSymbol

  type ModuleId = x: nat | x < 0x1_0000

  datatype SymbolData = SymbolData(id: Word, offset: Word, moduleId: ModuleId, kind: SymbolKind)

  /** Module bases, constants (bytes and address) and symbols: what operands are resolved against. */
  datatype Layout = Layout(
    bases: map<ModuleId, Word>,
    constants: seq<seq<Byte>>,
    constantAddresses: seq<Word>,
    symbols: seq<SymbolData>)
}
