/** Every emitted command is one the linker and the byte machine accept, whatever values are computed. */
module CodegenStatic {
  import opened Words
  import opened ByteCode
  import opened Machine
  import opened Pseudo
  import opened Registers
  import opened CodegenSpec
  import opened RegisterBalance
  import opened StackEvaluator
  import opened CodegenCorrect
  import B = ByteMachine

  /** The frame names an existing place, constant or general register, and holds an integer. */
  predicate Sound(ctx: Context, f: Frame) {
    && f.dtype != Real
    && match f.holder
       case InRegister => f.data < ctx.env.general
       case PointerInRegister => f.data < ctx.env.general
       case StaticAddress => PlaceOk(ctx, PlaceArg(f), f.dsize) && f.ssize == f.dsize && f.stype != Real
       case SymbolRef => PlaceOk(ctx, PlaceArg(f), f.dsize) && f.ssize == f.dsize && f.stype != Real
       case ConstantRef => ConstantOk(ctx, f.data, f.dsize)
  }

  ghost predicate AllSound(ctx: Context, stack: seq<Frame>) {
    forall k :: 0 <= k < |stack| ==> Sound(ctx, stack[k])
  }

  /** Only acceptable commands were appended. */
  ghost predicate Extends(ctx: Context, g: GState, g': GState) {
    g.code <= g'.code && forall k :: |g.code| <= k < |g'.code| ==> LineOk(ctx, g'.code[k])
  }

  lemma PutExtends(ctx: Context, g: GState, code: seq<Command>)
    requires IsLine(ctx, code)
    ensures Extends(ctx, g, Put(g, code))
  {
    hide LineOk;
  }

  lemma ExtendsTail(ctx: Context, g: GState, g': GState) returns (code: seq<Command>)
    requires Extends(ctx, g, g')
    ensures g'.code == g.code + code && IsLine(ctx, code)
  {
    hide LineOk;
    code := g'.code[|g.code|..];
  }

  /** What every operation needs from the state before it. */
  ghost predicate Ready(ctx: Context, g: GState) {
    ContextOk(ctx) && Agrees(ctx.env, g) && AllSound(ctx, g.stack)
  }

  // ----- loading -----

  lemma LoadCommandSound(ctx: Context, f: Frame, r: nat)
    requires ContextOk(ctx) && Sound(ctx, f) && !Loaded(f) && r < ctx.env.general
    ensures LineOk(ctx, LoadCommand(ctx.env, f, r)) && Sound(ctx, LoadedFrame(ctx.env, f, r))
  {
    ReferenceCommands(f, r);
    hide B.Decode, B.IsPlace, B.PlaceAddress;
  }

  lemma LoadSound(ctx: Context, g: GState)
    requires Ready(ctx, g) && LoadOperand(ctx.env, g).Some?
    ensures var o := LoadOperand(ctx.env, g).value;
            Ready(ctx, o.rest) && Sound(ctx, o.frame) && Extends(ctx, g, o.rest) && o.frame.data < ctx.env.general
  {
    hide ContextOk, Sound, LineOk, LoadCommand, LoadedFrame, Owned, Distinct;
    LoadAgrees(ctx.env, g);
    var f := g.stack[|g.stack| - 1];
    assert Sound(ctx, f);
    if !Loaded(f) {
      LoadCommandSound(ctx, f, LowestFree(g.used, ctx.env.general).value);
    }
    SoundRegister(ctx, LoadOperand(ctx.env, g).value.frame);
  }

  lemma SoundRegister(ctx: Context, f: Frame)
    requires Sound(ctx, f) && Loaded(f)
    ensures f.data < ctx.env.general
  {
  }

  lemma LoadBothSound(ctx: Context, g: GState)
    requires Ready(ctx, g) && LoadBoth(ctx.env, g).Some?
    ensures var x := LoadBoth(ctx.env, g).value;
            && Ready(ctx, x.rest) && Sound(ctx, x.left) && Sound(ctx, x.right) && Extends(ctx, g, x.rest)
            && x.left.data < ctx.env.general && x.right.data < ctx.env.general
  {
    hide ContextOk, Sound, LineOk, LoadOperand, Owned, Distinct;
    LoadSound(ctx, g);
    LoadSound(ctx, LoadOperand(ctx.env, g).value.rest);
  }

  // ----- operators -----

  lemma ConversionSound(ctx: Context, from: Primitive, to: Primitive, r: Word)
    requires from != Real && to != Real
    ensures IsLine(ctx, Conversion(from, to, r))
  {
    hide Conversion, B.Decode;
    ConversionDecoded(from, to, r);
  }

  lemma OperateSound(ctx: Context, op: PseudoOpCode, t: Primitive, l: Word, r: Word)
    requires IsBinary(op) && IsCovered(op) && t != Real
    requires l < ctx.env.general && r < ctx.env.general && ctx.env.general <= B.GENERAL_REGISTERS
    ensures var code := if IsArithmetic(op) then ArithmeticCode(op, t) else LogicCode(op, if IsComparison(op) then t else UInt);
            LineOk(ctx, Operate(code, l, r))
  {
    hide B.Decode, ArithmeticCode, LogicCode;
    if IsComparison(op) {
      CodeMeansComparison(op, t, l, r);
    } else {
      CodeMeansOperator(op, t, l, r);
    }
  }

  lemma CombineSound(ctx: Context, op: PseudoOpCode, left: Frame, right: Frame)
    requires Combine(op, left, right).Some? && IsBinary(op) && IsCovered(op)
    requires Sound(ctx, left) && Sound(ctx, right) && Loaded(left) && ctx.env.general <= B.GENERAL_REGISTERS
    requires left.data < ctx.env.general && right.data < ctx.env.general
    ensures var done := Combine(op, left, right).value; IsLine(ctx, done.0) && Sound(ctx, done.1)
  {
    hide LineOk, Conversion, ArithmeticCode, LogicCode, CommonType, IsArithmetic, IsLogic, IsBitLogic, IsComparison;
    OneKind(op);
    var t := CommonType(left.dtype, right.dtype);
    CommonInteger(left.dtype, right.dtype);
    OperateSound(ctx, op, t, left.data, right.data);
    ConversionSound(ctx, left.dtype, t, left.data);
    ConversionSound(ctx, right.dtype, t, right.data);
  }

  lemma OperatorSound(ctx: Context, g: GState, op: PseudoOpCode)
    requires Ready(ctx, g) && IsCovered(op) && Operator(ctx.env, g, op).Some?
    ensures var g' := Operator(ctx.env, g, op).value; Ready(ctx, g') && Extends(ctx, g, g')
  {
    hide ContextOk, Sound, LineOk, LoadOperand, LoadBoth, Owned, Distinct, Combine, IsBinary, IsLine;
    RegistersFit(ctx);
    OperatorAgrees(ctx.env, g, op);
    if IsBinary(op) {
      LoadBothSound(ctx, g);
      LoadBothAgrees(ctx.env, g);
      var x := LoadBoth(ctx.env, g).value;
      CombineSound(ctx, op, x.left, x.right);
      PutExtends(ctx, x.rest, Combine(op, x.left, x.right).value.0);
    } else if op == Negative || op == BitNot {
      UnarySound(ctx, g, op);
    }
  }

  lemma UnarySound(ctx: Context, g: GState, op: PseudoOpCode)
    requires Ready(ctx, g) && (op == Negative || op == BitNot) && Unary(ctx.env, g, op).Some?
    ensures var g' := Unary(ctx.env, g, op).value; AllSound(ctx, g'.stack) && Extends(ctx, g, g')
  {
    hide ContextOk, LoadOperand, Owned, Distinct, B.Decode, LogicCode, ArithmeticCode, PlaceOk, ConstantOk;
    RegistersFit(ctx);
    LoadSound(ctx, g);
    var x := LoadOperand(ctx.env, g).value;
    CodeMeansUnary(op, x.frame.dtype, x.frame.data);
  }

  // ----- assignment -----

  lemma StoreSound(ctx: Context, left: Frame, r: Word)
    requires ContextOk(ctx) && Sound(ctx, left) && (left.holder == StaticAddress || left.holder == SymbolRef)
    requires r < ctx.env.general
    ensures LineOk(ctx, StorePlace(left, r))
  {
    ReferenceCommands(left, r);
    hide B.Decode, B.IsPlace, B.PlaceAddress;
  }

  lemma StoreToSound(ctx: Context, g: GState, left: Frame, right: Frame, keeps: bool)
    requires ContextOk(ctx) && Sound(ctx, left) && Sound(ctx, right) && right.data < ctx.env.general
    requires StoreTo(g, left, right, keeps).Some?
    ensures Extends(ctx, g, StoreTo(g, left, right, keeps).value)
  {
    hide ContextOk, LineOk, Conversion, StorePlace, PlaceOk, ConstantOk;
    ConversionSound(ctx, right.dtype, left.dtype, right.data);
    StoreSound(ctx, left, right.data);
  }

  lemma AssignmentSound(ctx: Context, g: GState, op: PseudoOp)
    requires Ready(ctx, g) && IsCovered(op.compound) && Assignment(ctx.env, g, op).Some?
    requires op.code == Assign || op.code == AssignR
    ensures var g' := Assignment(ctx.env, g, op).value; AllSound(ctx, g'.stack) && Extends(ctx, g, g')
  {
    hide ContextOk, Sound, LineOk, LoadOperand, Owned, Distinct, Operator, StoreTo;
    LoadSound(ctx, g);
    LoadAgrees(ctx.env, g);
    var right := LoadOperand(ctx.env, g).value;
    var left := right.rest.stack[|right.rest.stack| - 1];
    assert Sound(ctx, left);
    if op.compound == Nop {
      StoreToSound(ctx, right.rest, left, right.frame, op.code == AssignR);
      StoreKeepsStack(right.rest, left, right.frame, op.code == AssignR);
    } else {
      var pushed := Push(right.rest, right.frame);
      PushAgrees(ctx.env, right.rest, right.frame);
      OperatorSound(ctx, pushed, op.compound);
      var computed := Operator(ctx.env, pushed, op.compound).value;
      LoadSound(ctx, computed);
      var result := LoadOperand(ctx.env, computed).value;
      var h := if op.code == AssignR then Push(result.rest, left) else result.rest;
      StoreToSound(ctx, h, left, result.frame, op.code == AssignR);
      StoreKeepsStack(h, left, result.frame, op.code == AssignR);
    }
  }

  lemma StoreKeepsStack(g: GState, left: Frame, right: Frame, keeps: bool)
    requires StoreTo(g, left, right, keeps).Some?
    ensures StoreTo(g, left, right, keeps).value.stack == g.stack
  {
  }

  // ----- whole translations -----

  lemma OperandSound(ctx: Context)
    requires ContextOk(ctx)
    ensures forall id :: id in ctx.env.vars ==> Sound(ctx, UseFrame(ctx.env.vars[id]))
    ensures forall k: Word :: k < |ctx.env.constants| ==> Sound(ctx, ConstantFrame(k, ctx.env.constants[k]))
  {
    forall id | id in ctx.env.vars
      ensures Sound(ctx, UseFrame(ctx.env.vars[id]))
    {
      var v := ctx.env.vars[id];
      assert PlaceArg(UseFrame(v)) == VariableArg(v);
    }
  }

  lemma EmitSound(ctx: Context, g: GState, op: PseudoOp)
    requires Ready(ctx, g) && Straight(op) && EmitOp(ctx.env, g, op).Some?
    ensures var g' := EmitOp(ctx.env, g, op).value; Ready(ctx, g') && Extends(ctx, g, g')
  {
    hide ContextOk, Sound, LineOk, Operator, Assignment, Owned, Distinct;
    EmitAgrees(ctx.env, g, op);
    OperandSound(ctx);
    if op.code == Assign || op.code == AssignR {
      AssignmentSound(ctx, g, op);
    } else if op.code != Use && op.code != UseConstant {
      OperatorSound(ctx, g, op.code);
    }
  }

  /** Whatever a straight-line translation emits can be linked and run: no unsupported operation or operand. */
  lemma {:induction false} TranslationSound(ctx: Context, g: GState, ops: seq<PseudoOp>)
    requires Ready(ctx, g) && (forall op :: op in ops ==> Straight(op)) && EmitAll(ctx.env, g, ops).Some?
    ensures var g' := EmitAll(ctx.env, g, ops).value; Ready(ctx, g') && Extends(ctx, g, g')
    decreases |ops|
  {
    hide EmitOp, ContextOk, AllSound, Owned, Distinct, LineOk;
    if ops != [] {
      EmitSound(ctx, g, ops[0]);
      TranslationSound(ctx, EmitOp(ctx.env, g, ops[0]).value, ops[1..]);
    }
  }
}
