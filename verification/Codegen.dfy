/** The byte command generator: it keeps operand frames, a register table and the commands emitted so far. */
module Codegen {
  import opened Words
  import opened ByteCode
  import opened Pseudo
  import opened Registers
  import opened CodegenSpec

  lemma ComparisonCombines(op: PseudoOpCode, left: Frame, right: Frame)
    requires IsComparison(op)
    ensures Combine(op, left, right)
         == Some((ConversionOf(left, right) + [Operate(LogicCode(op, CommonType(left.dtype, right.dtype)), left.data, right.data)],
                  Plain(left.data, UInt, LOGIC_RESULT_SIZE)))
  {
    hide LogicCode, ConversionOf, CommonType;
  }

  lemma ArithmeticCombines(op: PseudoOpCode, left: Frame, right: Frame)
    requires IsArithmetic(op) && op != Mod
    ensures Combine(op, left, right)
         == if left.holder == PointerInRegister && left.typed then None
            else Some((ConversionOf(left, right) + [Operate(ArithmeticCode(op, CommonType(left.dtype, right.dtype)), left.data, right.data)],
                       ConvertedFrame(left, right)))
  {
    hide ArithmeticCode, ConversionOf, CommonType, ConvertedFrame;
  }

  class ByteTranslationState {
    const env: Env
    const registers: RegistersTable
    var valueStack: seq<Frame>
    var result: seq<Command>

    predicate Valid() {
      env.general < TWO64 && registers.Valid() && registers.generalCount == env.general
    }

    ghost function View(): GState
      reads this, registers.bitmap
    {
      GState(valueStack, registers.Used(), result)
    }

    /** The outcome of an operation: success exactly when expected, with the expected state. */
    ghost predicate Done(ok: bool, expected: Option<GState>)
      reads this, registers.bitmap
    {
      ok == expected.Some? && (ok ==> View() == expected.value)
    }

    constructor (env: Env, accumulators: nat, specials: nat)
      requires env.general < TWO64
      ensures Valid() && this.env == env && fresh(registers) && fresh(registers.bitmap)
      ensures View() == GState([], {}, [])
    {
      this.env := env;
      registers := new RegistersTable(env.general, accumulators, specials);
      valueStack, result := [], [];
    }

    method PushCommand(command: Command)
      modifies this`result
      ensures result == old(result) + [command]
    {
      result := result + [command];
    }

    /** Pops an operand and makes sure that it is in a register. */
    method GenerateLoadCommand() returns (r: Option<Frame>)
      requires Valid()
      modifies this, registers.bitmap
      ensures var expected := LoadOperand(env, old(View()));
              && r.Some? == expected.Some?
              && (r.Some? ==> r.value == expected.value.frame && View() == expected.value.rest)
    {
      if |valueStack| == 0 { return None; }
      var frame := valueStack[|valueStack| - 1];
      valueStack := valueStack[..|valueStack| - 1];
      if frame.holder == InRegister || frame.holder == PointerInRegister { return Some(frame); }
      var freeRegister := registers.AllocateFreeGeneral();
      if freeRegister.None? { return None; }
      var reg := freeRegister.value;
      if frame.holder == StaticAddress || frame.holder == SymbolRef {
        if frame.dsize > POINTER_SIZE { return None; }
        PushCommand(LoadPlace(frame, reg));
        return Some(frame.(holder := InRegister, data := reg, dtype := frame.stype));
      }
      if frame.dsize > POINTER_SIZE || (frame.data < |env.constants| && env.constants[frame.data].isString) {
        PushCommand(ConstantAddress(frame, reg));
        return Some(frame.(holder := PointerInRegister, data := reg, dsize := POINTER_SIZE));
      }
      PushCommand(LoadConstant(frame, reg));
      return Some(frame.(holder := InRegister, data := reg));
    }

    /** The two operands of a binary operator: the right one is on top and is loaded first. */
    method LoadOperands() returns (ok: bool, left: Frame, right: Frame)
      requires Valid()
      modifies this, registers.bitmap
      ensures var expected := LoadBoth(env, old(View()));
              && ok == expected.Some?
              && (ok ==> Operands(left, right, View()) == expected.value)
    {
      hide LoadOperand;
      left, right := Plain(0, UInt, 0), Plain(0, UInt, 0);
      if |valueStack| < 2 { return false, left, right; }
      var r := GenerateLoadCommand();
      if r.None? { return false, left, right; }
      var l := GenerateLoadCommand();
      if l.None? { return false, left, r.value; }
      return true, l.value, r.value;
    }

    method ConvertOperands(left: Frame, right: Frame) returns (convertedRegister: Word, common: Primitive)
      modifies this`result
      ensures result == old(result) + ConversionOf(left, right)
      ensures common == CommonType(left.dtype, right.dtype)
      ensures convertedRegister == ConvertedRegister(left, right)
    {
      common := if Rank(left.dtype) > Rank(right.dtype) then left.dtype else right.dtype;
      if left.dtype != common {
        convertedRegister := left.data;
        result := result + Conversion(left.dtype, common, left.data);
      } else {
        convertedRegister := right.data;
        result := result + Conversion(right.dtype, common, right.data);
      }
    }

    /** The result keeps the left register and takes the size of the converted operand. */
    method AddConvertedFrame(left: Frame, right: Frame, convertedRegister: Word, common: Primitive)
      requires convertedRegister == ConvertedRegister(left, right)
      requires common == CommonType(left.dtype, right.dtype)
      modifies this`valueStack
      ensures valueStack == old(valueStack) + [ConvertedFrame(left, right)]
    {
      var leftConverted := convertedRegister == left.data;
      var frame := Frame(left.holder, left.data, common,
                         if leftConverted then left.dsize else right.dsize,
                         if leftConverted then right.stype else left.stype,
                         if leftConverted then right.ssize else left.ssize,
                         if leftConverted then right.typed else left.typed);
      valueStack := valueStack + [frame];
    }

    method MainArithmeticHandler(op: PseudoOpCode) returns (ok: bool)
      requires Valid() && IsArithmetic(op) && op != Mod
      modifies this, registers.bitmap
      ensures Done(ok, Binary(env, old(View()), op))
    {
      hide LoadOperand, LoadBoth, LogicCode, ArithmeticCode, ConversionOf, CommonType, Combine, IsBinary, IsComparison, IsArithmetic,
           ConvertedFrame;
      var left, right;
      ok, left, right := LoadOperands();
      if !ok { return; }
      ArithmeticCombines(op, left, right);
      if left.holder == PointerInRegister && left.typed { return false; }
      var converted, common := ConvertOperands(left, right);
      PushCommand(Operate(ArithmeticCode(op, common), left.data, right.data));
      registers.SetFree(right.data);
      AddConvertedFrame(left, right, converted, common);
    }

    method ModHandler() returns (ok: bool)
      requires Valid()
      modifies this, registers.bitmap
      ensures Done(ok, Binary(env, old(View()), Mod))
    {
      hide LoadOperand, LoadBoth, LogicCode, ArithmeticCode, Conversion, ConvertsLeft, CommonType;
      var left, right;
      ok, left, right := LoadOperands();
      if !ok { return; }
      if left.dtype == Real || right.dtype == Real { return false; }
      var converted, common := ConvertOperands(left, right);
      PushCommand(Operate(ArithmeticCode(Mod, common), left.data, right.data));
      registers.SetFree(right.data);
      AddConvertedFrame(left, right, converted, common);
    }

    method MainLogicHandler(op: PseudoOpCode) returns (ok: bool)
      requires Valid() && IsLogic(op)
      modifies this, registers.bitmap
      ensures Done(ok, Binary(env, old(View()), op))
    {
      hide LoadOperand, LoadBoth, LogicCode, ArithmeticCode, Conversion, ConvertsLeft, CommonType;
      var left, right;
      ok, left, right := LoadOperands();
      if !ok { return; }
      PushCommand(Operate(LogicCode(op, UInt), left.data, right.data));
      registers.SetFree(right.data);
      valueStack := valueStack + [Plain(left.data, UInt, LOGIC_RESULT_SIZE)];
    }

    method MainBitLogicHandler(op: PseudoOpCode) returns (ok: bool)
      requires Valid() && IsBitLogic(op)
      modifies this, registers.bitmap
      ensures Done(ok, Binary(env, old(View()), op))
    {
      hide LoadOperand, LoadBoth, LogicCode, ArithmeticCode, Conversion, ConvertsLeft, CommonType;
      var left, right;
      ok, left, right := LoadOperands();
      if !ok { return; }
      if left.dtype == Real || right.dtype == Real { return false; }
      PushCommand(Operate(LogicCode(op, UInt), left.data, right.data));
      registers.SetFree(right.data);
      valueStack := valueStack + [Plain(left.data, UInt, left.dsize)];
    }

    method MainComparisonHandler(op: PseudoOpCode) returns (ok: bool)
      requires Valid() && IsComparison(op)
      modifies this, registers.bitmap
      ensures Done(ok, Binary(env, old(View()), op))
    {
      hide LoadOperand, LoadBoth, LogicCode, ArithmeticCode, ConversionOf, CommonType, Combine, IsBinary, IsComparison, IsArithmetic;
      var left, right;
      ok, left, right := LoadOperands();
      if !ok { return; }
      ComparisonCombines(op, left, right);
      var _, common := ConvertOperands(left, right);
      PushCommand(Operate(LogicCode(op, common), left.data, right.data));
      registers.SetFree(right.data);
      valueStack := valueStack + [Plain(left.data, UInt, LOGIC_RESULT_SIZE)];
    }

    method UnaryHandler(op: PseudoOpCode) returns (ok: bool)
      requires Valid() && (op == Negative || op == BitNot)
      modifies this, registers.bitmap
      ensures Done(ok, Unary(env, old(View()), op))
    {
      var operand := GenerateLoadCommand();
      if operand.None? { return false; }
      var frame := operand.value;
      if op == Negative {
        if frame.dtype == UInt { return false; }
        PushCommand(OperateOnce(ArithmeticCode(op, frame.dtype), frame.data));
      } else {
        PushCommand(OperateOnce(LogicCode(op, frame.dtype), frame.data));
      }
      valueStack := valueStack + [frame];
      ok := true;
    }

    method HandleArithmeticLogic(op: PseudoOpCode) returns (ok: bool)
      requires Valid()
      modifies this, registers.bitmap
      ensures Done(ok, Operator(env, old(View()), op))
    {
      hide Binary, Unary, LoadOperand, LowestFree;
      if op == Mod {
        ok := ModHandler();
      } else if IsArithmetic(op) {
        ok := MainArithmeticHandler(op);
      } else if IsLogic(op) {
        ok := MainLogicHandler(op);
      } else if op == Negative || op == BitNot {
        ok := UnaryHandler(op);
      } else if IsBitLogic(op) {
        ok := MainBitLogicHandler(op);
      } else if IsComparison(op) {
        ok := MainComparisonHandler(op);
      } else {
        ok := true;
      }
    }

    method HandleAssignment(op: PseudoOp) returns (ok: bool)
      requires Valid()
      modifies this, registers.bitmap
      ensures Done(ok, Assignment(env, old(View()), op))
    {
      hide LoadOperand, Operator, Conversion, StorePlace;
      if |valueStack| < 2 { return false; }
      var loaded := GenerateLoadCommand();
      if loaded.None? { return false; }
      var right, left := loaded.value, valueStack[|valueStack| - 1];
      if op.compound != Nop {
        valueStack := valueStack + [right];
        ok := HandleArithmeticLogic(op.compound);
        if !ok { return; }
        loaded := GenerateLoadCommand();
        if loaded.None? { return false; }
        right := loaded.value;
        if op.code == AssignR {
          valueStack := valueStack + [left];
        }
      }
      ghost var before := result;
      result := result + Conversion(right.dtype, left.dtype, right.data);
      if left.holder != StaticAddress && left.holder != SymbolRef { return false; }
      PushCommand(StorePlace(left, right.data));
      assert result == before + (Conversion(right.dtype, left.dtype, right.data) + [StorePlace(left, right.data)]);
      if op.code != AssignR {
        if op.compound == Nop {
          valueStack := valueStack[..|valueStack| - 1];
        }
        registers.SetFree(right.data);
      }
      ok := true;
    }

    method HandleUsing(op: PseudoOp) returns (ok: bool)
      requires Valid() && (op.code == Use || op.code == UseConstant)
      modifies this
      ensures Done(ok, EmitOp(env, old(View()), op))
    {
      if op.code == Use {
        if op.arg0 !in env.vars { return false; }
        valueStack := valueStack + [UseFrame(env.vars[op.arg0])];
      } else {
        if op.arg0 >= |env.constants| { return false; }
        valueStack := valueStack + [ConstantFrame(op.arg0, env.constants[op.arg0])];
      }
      ok := true;
    }

    method HandleControlFlow(op: PseudoOp) returns (ok: bool)
      requires Valid() && op.code in {Label, Jump, JumpIf, JumpNIf}
      modifies this, registers.bitmap
      ensures Done(ok, EmitOp(env, old(View()), op))
    {
      if op.code == Label {
        PushCommand(Cmd(JMP_LABEL, Number(op.arg0), NoArg(), NoArg()));
      } else if op.code == Jump {
        PushCommand(Cmd(JMP, Number(op.arg0), NoArg(), NoArg()));
      } else {
        var condition := GenerateLoadCommand();
        if condition.None? { return false; }
        var code := if op.code == JumpNIf then JMPCNV else JMPCV;
        PushCommand(Cmd(code, Number(op.arg0), Reg(condition.value.data), NoArg()));
      }
      ok := true;
    }

    method HandleCommand(op: PseudoOp) returns (ok: bool)
      requires Valid()
      modifies this, registers.bitmap
      ensures Done(ok, EmitOp(env, old(View()), op))
    {
      if op.code == Assign || op.code == AssignR {
        ok := HandleAssignment(op);
      } else if op.code == Use || op.code == UseConstant {
        ok := HandleUsing(op);
      } else if op.code in {Label, Jump, JumpIf, JumpNIf} {
        ok := HandleControlFlow(op);
      } else {
        ok := HandleArithmeticLogic(op.code);
      }
    }

    /** The whole translation, up to the first reported error. */
    method Translate(ops: seq<PseudoOp>) returns (ok: bool)
      requires Valid()
      modifies this, registers.bitmap
      ensures Done(ok, EmitAll(env, old(View()), ops))
    {
      var i := 0;
      while i < |ops|
        invariant 0 <= i <= |ops|
        invariant EmitAll(env, View(), ops[i..]) == EmitAll(env, old(View()), ops)
      {
        ghost var rest := ops[i..];
        assert rest[0] == ops[i] && rest[1..] == ops[i + 1..];
        ok := HandleCommand(ops[i]);
        if !ok { return; }
        i := i + 1;
      }
      ok := true;
    }
  }
}
