/** Commands that the machines here do not perform, on reals above all: which operations of the virtual machine they are linked to. */
module UnperformedOperations {
  import opened Words
  import opened ByteCode
  import opened Pseudo
  import opened CodegenSpec
  import opened LinkSpec
  import Tokens
  import T = ExpressionsTranslator
  import V = VM

  // ----- linking a few commands -----

  lemma EmitOne(c: Command)
    ensures Emit([c]) == Expansion(c)
  {
    hide Expansion;
    assert Emit([]) == [];
    EmitAppend([], c);
    assert [] + [c] == [c];
    assert [] + Expansion(c) == Expansion(c);
  }

  lemma EmitBehind(cs: seq<Command>, c: Command)
    ensures Emit(cs + [c]) == Emit(cs) + Expansion(c)
  {
    EmitAppend(cs, c);
  }

  // ----- conversions -----

  /** The operation that converts a register between two types, and no operation within one. */
  function Converting(from: Primitive, to: Primitive, r: Word): seq<V.VMOp> {
    match (from, to)
    case (Int, Real) => [V.VMOp(V.TC_ITR_R, r, 0, 0)]
    case (UInt, Real) => [V.VMOp(V.TC_UTR_R, r, 0, 0)]
    case (Real, Int) => [V.VMOp(V.TC_RTI_R, r, 0, 0)]
    case (Real, UInt) => [V.VMOp(V.TC_RTU_R, r, 0, 0)]
    case (Int, UInt) => [V.VMOp(V.TC_ITU_R, r, 0, 0)]
    case (UInt, Int) => [V.VMOp(V.TC_UTI_R, r, 0, 0)]
    case _ => []
  }

  lemma ConversionExpands(code: ByteOpCode, r: Word)
    requires ConversionCode(code).Some?
    ensures Expansion(Cmd(code, Reg(r), NoArg(), NoArg())) == [V.VMOp(ConversionCode(code).value, r, 0, 0)]
  {
    ConversionSection(code);
  }

  lemma ConversionSection(code: ByteOpCode)
    requires ConversionCode(code).Some?
    ensures SectionOf(code) == Special
  {
  }

  lemma ConversionNames(from: Primitive, to: Primitive, r: Word)
    requires from != to
    ensures |Conversion(from, to, r)| == 1
    ensures var c := Conversion(from, to, r)[0];
            && c == Cmd(c.code, Reg(r), NoArg(), NoArg()) && ConversionCode(c.code).Some?
            && Converting(from, to, r) == [V.VMOp(ConversionCode(c.code).value, r, 0, 0)]
  {
  }

  lemma ConversionLinked(from: Primitive, to: Primitive, r: Word)
    ensures Emit(Conversion(from, to, r)) == Converting(from, to, r)
  {
    hide Emit, ConversionCode, Expansion;
    if from == to {
      EmitNothing();
    } else {
      hide Conversion, Converting;
      ConversionNames(from, to, r);
      var c := Conversion(from, to, r)[0];
      assert Conversion(from, to, r) == [c];
      EmitOne(c);
      ConversionExpands(c.code, r);
    }
  }

  lemma EmitNothing()
    ensures Emit([]) == []
  {
  }

  /** What is assigned is converted to the type of its target before it is stored. */
  lemma StoreConverts(g: GState, left: Frame, right: Frame, keeps: bool)
    requires left.holder == StaticAddress || left.holder == SymbolRef
    ensures StoreTo(g, left, right, keeps).Some?
    ensures exists converting ::
              && StoreTo(g, left, right, keeps).value.code == g.code + converting + [StorePlace(left, right.data)]
              && Emit(converting) == Converting(right.dtype, left.dtype, right.data)
  {
    hide Conversion, Converting, StorePlace, Emit;
    var converting := Conversion(right.dtype, left.dtype, right.data);
    ConversionLinked(right.dtype, left.dtype, right.data);
    var stored := [StorePlace(left, right.data)];
    assert g.code + (converting + stored) == g.code + converting + stored;
  }

  // ----- operators -----

  predicate OnReals(left: Frame, right: Frame) {
    (left.dtype == Real || right.dtype == Real) && !(left.holder == PointerInRegister && left.typed)
  }

  /** The operand that is not real yet is converted. */
  function MadeReal(left: Frame, right: Frame): seq<V.VMOp> {
    if left.dtype != Real then Converting(left.dtype, Real, left.data) else Converting(right.dtype, Real, right.data)
  }

  function Arithmetic(op: Tokens.Symbol): Option<V.VMOpCode> {
    match op
    case Times => Some(V.MUL_RRR_REAL)
    case Over => Some(V.DIV_RRR_REAL)
    case Plus => Some(V.ADD_RRR_REAL)
    case Minus => Some(V.SUB_RRR_REAL)
    case _ => None
  }

  /** The flags that are asked for after comparing, and whether the answer is negated. */
  datatype Question = Question(flag1: Word, flag2: Word, negated: bool)

  function Asking(op: Tokens.Symbol): Option<Question> {
    match op
    case Eq => Some(Question(V.FLAG_ZERO, V.FLAG_NONE, false))
    case Ne => Some(Question(V.FLAG_ZERO, V.FLAG_NONE, true))
    case Lt => Some(Question(V.FLAG_LESS, V.FLAG_NONE, false))
    case Le => Some(Question(V.FLAG_LESS, V.FLAG_ZERO, false))
    case Gt => Some(Question(V.FLAG_GREATER, V.FLAG_NONE, false))
    case Ge => Some(Question(V.FLAG_GREATER, V.FLAG_ZERO, false))
    case _ => None
  }

  lemma Converted(left: Frame, right: Frame)
    requires OnReals(left, right)
    ensures CommonType(left.dtype, right.dtype) == Real && Emit(ConversionOf(left, right)) == MadeReal(left, right)
  {
    hide Emit, Conversion, Converting;
    ConversionLinked(left.dtype, Real, left.data);
    ConversionLinked(right.dtype, Real, right.data);
  }

  lemma ArithmeticLinked(op: Tokens.Symbol, l: Word, r: Word)
    requires Arithmetic(op).Some?
    ensures var code := T.OpCodeOf(op);
            IsArithmetic(code) && Expansion(Operate(ArithmeticCode(code, Real), l, r)) == [V.VMOp(Arithmetic(op).value, l, l, r)]
  {
  }

  lemma RealSpelled(op: Tokens.Symbol)
    requires Asking(op).Some?
    ensures var code, q := T.OpCodeOf(op), Asking(op).value;
            && IsComparison(code) && !IsArithmetic(code) && !IsLogic(code) && !IsBitLogic(code)
            && SpellComparison(LogicCode(code, Real)) == Some(Spelling(V.CMP_RR_REAL, q.flag1, q.flag2, q.negated))
  {
  }

  lemma SpelledCompares(code: ByteOpCode)
    requires SpellComparison(code).Some?
    ensures SectionOf(code) == Comparing
  {
  }

  lemma SpelledExpands(code: ByteOpCode, l: Word, r: Word)
    requires SpellComparison(code).Some?
    ensures var s := SpellComparison(code).value;
            Expansion(Operate(code, l, r))
            == [V.VMOp(s.cmp, l, r, 0), V.VMOp(V.GET_FLAG, l, s.flag1, s.flag2)] + if s.negate then [V.VMOp(V.NOT_RR, l, l, 0)] else []
  {
    hide SectionOf, SpellComparison;
    SpelledCompares(code);
  }

  /**
   * With a real operand, an arithmetic or comparison operator converts the operand that is not real and is linked to the virtual machine's real
   * operation, on the registers in their order; the remainder and the bit operators are refused.
   */
  lemma RealOperatorLinked(op: Tokens.Symbol, left: Frame, right: Frame)
    requires OnReals(left, right) && op != Tokens.Field && op != Tokens.PointerField
    ensures Arithmetic(op).Some? ==>
              var r := Combine(T.OpCodeOf(op), left, right);
              && r.Some? && r.value.1.dtype == Real
              && Emit(r.value.0) == MadeReal(left, right) + [V.VMOp(Arithmetic(op).value, left.data, left.data, right.data)]
    ensures Asking(op).Some? ==>
              var r, q := Combine(T.OpCodeOf(op), left, right), Asking(op).value;
              && r.Some? && r.value.1.dtype == UInt
              && Emit(r.value.0)
                 == MadeReal(left, right)
                    + ([V.VMOp(V.CMP_RR_REAL, left.data, right.data, 0), V.VMOp(V.GET_FLAG, left.data, q.flag1, q.flag2)]
                       + if q.negated then [V.VMOp(V.NOT_RR, left.data, left.data, 0)] else [])
    ensures op in {Tokens.Percent, Tokens.Ampersand, Tokens.Bar, Tokens.ShiftL, Tokens.ShiftR} ==> Combine(T.OpCodeOf(op), left, right) == None
  {
    hide Emit, Expansion, ConversionOf, MadeReal, ArithmeticCode, LogicCode, SectionOf, SpellComparison, T.OpCodeOf;
    Converted(left, right);
    if Arithmetic(op).Some? {
      ArithmeticLinked(op, left.data, right.data);
      EmitBehind(ConversionOf(left, right), Operate(ArithmeticCode(T.OpCodeOf(op), Real), left.data, right.data));
      NotRemainder(op);
    } else if Asking(op).Some? {
      RealSpelled(op);
      SpelledExpands(LogicCode(T.OpCodeOf(op), Real), left.data, right.data);
      EmitBehind(ConversionOf(left, right), Operate(LogicCode(T.OpCodeOf(op), Real), left.data, right.data));
    } else if op in {Tokens.Percent, Tokens.Ampersand, Tokens.Bar, Tokens.ShiftL, Tokens.ShiftR} {
      Refused(op);
    }
  }

  lemma NotRemainder(op: Tokens.Symbol)
    requires Arithmetic(op).Some?
    ensures T.OpCodeOf(op) != Mod
  {
  }

  lemma Refused(op: Tokens.Symbol)
    requires op in {Tokens.Percent, Tokens.Ampersand, Tokens.Bar, Tokens.ShiftL, Tokens.ShiftR}
    ensures var code := T.OpCodeOf(op); code == Mod || (IsBitLogic(code) && !IsArithmetic(code) && !IsLogic(code))
  {
  }

  /** Negating a real is linked to the virtual machine's operation on the register. */
  lemma RealNegationLinked(f: Frame)
    requires f.dtype == Real
    ensures Expansion(OperateOnce(ArithmeticCode(T.OpCodeOf(Tokens.MinusU), f.dtype), f.data)) == [V.VMOp(V.NEG_RR_REAL, f.data, f.data, 0)]
  {
  }

  // ----- heap and calls -----

  /**
   * Heap commands are linked to the virtual machine's, with their arguments; calls and returns become empty operations; what would push, pop or
   * compute an address at run time is dropped or refused.
   */
  lemma HeapAndCallsLinked(c: Command)
    ensures c.code == ALLOC ==> Expand(c) == Some([V.VMOp(V.ALLOCATE_MEMORY, c.arg0.data, c.arg1.data, c.arg2.data)])
    ensures c.code == FREE ==> Expand(c) == Some([V.VMOp(V.FREE_MEMORY, c.arg0.data, c.arg1.data, c.arg2.data)])
    ensures c.code in {CALL, RET, EXT} ==> Expand(c) == Some([V.VMOp(V.VMOpCode.NOP, 0, 0, 0)])
    ensures c.code in {PUSH, POP, ByteOpCode.NOP} ==> Expand(c) == Some([])
    ensures c.code in {LEA_DYNAMIC, EXPI, EXPU, EXPR, SYMBOL_LABEL, MOV_FROM_SR} ==> Expand(c) == None
  {
    hide TableCode, SpellComparison;
    if c.code in {EXPI, EXPU, EXPR} {
      NoTableCode(c.code);
    }
  }

  lemma NoTableCode(code: ByteOpCode)
    requires code in {EXPI, EXPU, EXPR}
    ensures TableCode(code) == V.VMOpCode.NOP
  {
  }
}
