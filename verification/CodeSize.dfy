/** How long the code of a program can get, at each stage of its translation. */
module CodeSize {
  import opened Words
  import opened ByteCode
  import opened Pseudo
  import opened LoweringSpec
  import opened CodegenSpec
  import opened FlatCodegen
  import opened ProgramStart
  import LO = LinkOrder
  import LS = LinkSpec
  import SE = StackEvaluator

  lemma LoadsOne(env: Env, g: GState)
    requires env.general < TWO64 && LoadOperand(env, g).Some?
    ensures |LoadOperand(env, g).value.rest.code| <= |g.code| + 1
  {
  }

  lemma ConvertsOnce(from: Primitive, to: Primitive, r: Word)
    ensures |Conversion(from, to, r)| <= 1
  {
  }

  lemma OperatorSize(env: Env, g: GState, op: PseudoOpCode)
    requires env.general < TWO64 && Operator(env, g, op).Some?
    ensures |Operator(env, g, op).value.code| <= |g.code| + 4
  {
    hide LoadOperand, Conversion, ArithmeticCode, LogicCode, IsArithmetic, IsLogic, IsBitLogic;
    if IsBinary(op) {
      LoadsOne(env, g);
      var right := LoadOperand(env, g).value;
      LoadsOne(env, right.rest);
      var x := LoadBoth(env, g).value;
      var t := CommonType(x.left.dtype, x.right.dtype);
      ConvertsOnce(x.left.dtype, t, x.left.data);
      ConvertsOnce(x.right.dtype, t, x.right.data);
    } else if op == Negative || op == BitNot {
      LoadsOne(env, g);
    }
  }

  lemma StoreSize(g: GState, left: Frame, right: Frame, keeps: bool)
    requires StoreTo(g, left, right, keeps).Some?
    ensures |StoreTo(g, left, right, keeps).value.code| <= |g.code| + 2
  {
    hide Conversion, StorePlace;
    ConvertsOnce(right.dtype, left.dtype, right.data);
  }

  lemma AssignmentSize(env: Env, g: GState, op: PseudoOp)
    requires env.general < TWO64 && Assignment(env, g, op).Some?
    ensures |Assignment(env, g, op).value.code| <= |g.code| + 8
  {
    hide LoadOperand, Operator, StoreTo;
    LoadsOne(env, g);
    var right := LoadOperand(env, g).value;
    var left := right.rest.stack[|right.rest.stack| - 1];
    if op.compound == Nop {
      StoreSize(right.rest, left, right.frame, op.code == AssignR);
    } else {
      OperatorSize(env, Push(right.rest, right.frame), op.compound);
      var computed := Operator(env, Push(right.rest, right.frame), op.compound).value;
      LoadsOne(env, computed);
      var result := LoadOperand(env, computed).value;
      StoreSize(if op.code == AssignR then Push(result.rest, left) else result.rest, left, result.frame, op.code == AssignR);
    }
  }

  lemma OperationSize(env: Env, g: GState, op: PseudoOp)
    requires env.general < TWO64 && EmitOp(env, g, op).Some?
    ensures |EmitOp(env, g, op).value.code| <= |g.code| + 8
  {
    hide LoadOperand, Operator, Assignment;
    if op.code == Assign || op.code == AssignR {
      AssignmentSize(env, g, op);
    } else if op.code == JumpIf || op.code == JumpNIf {
      LoadsOne(env, g);
    } else if op.code != Use && op.code != UseConstant && op.code != Label && op.code != Jump {
      OperatorSize(env, g, op.code);
    }
  }

  lemma {:induction false} TranslationSize(env: Env, g: GState, ops: seq<PseudoOp>)
    requires env.general < TWO64 && EmitAll(env, g, ops).Some?
    ensures |EmitAll(env, g, ops).value.code| <= |g.code| + 8 * |ops|
    decreases |ops|
  {
    hide EmitOp;
    if ops != [] {
      OperationSize(env, g, ops[0]);
      TranslationSize(env, EmitOp(env, g, ops[0]).value, ops[1..]);
    }
  }

  lemma {:induction false} ExpandedSize(cs: seq<Command>)
    ensures |LS.Emit(cs)| <= 3 * |cs|
    decreases |cs|
  {
    hide LS.Emit, LS.Expansion;
    if cs == [] {
      NothingExpanded();
    } else {
      var n := |cs| - 1;
      assert cs == cs[..n] + [cs[n]];
      LS.EmitAppend(cs[..n], cs[n]);
      ExpandedSize(cs[..n]);
      AtMostThree(cs[n]);
    }
  }

  lemma NothingExpanded()
    ensures LS.Emit([]) == []
  {
  }

  lemma AtMostThree(c: Command)
    ensures |LS.Expansion(c)| <= 3
  {
  }

  /** Every operation of the flat code becomes at most eight commands of at most three operations: addresses are words up to this length. */
  lemma LinkedSize(ctx: SE.Context, code: seq<POp>, layout: Layout, start: Word, files: map<ModuleId, LO.ModuleFile>)
    requires StateAt(ctx.env, code, |code|).Some? && 24 * |code| < TWO64
    requires ctx.m in files && files[ctx.m].commands == Commands(ctx, code) && LO.LinkedCommands(layout, start, [ctx.m], files).Some?
    ensures |LS.Emit(LO.LinkedCommands(layout, start, [ctx.m], files).value)| < TWO64
  {
    hide EmitAll, LS.Emit;
    assert code[..|code|] == code;
    TranslationSize(ctx.env, FRESH, PseudoCode(code));
    OneModuleLinked(layout, start, ctx.m, files);
    ExpandedSize(LO.LinkedCommands(layout, start, [ctx.m], files).value);
  }

  lemma OneModuleLinked(layout: Layout, start: Word, m: ModuleId, files: map<ModuleId, LO.ModuleFile>)
    requires m in files && LO.LinkedCommands(layout, start, [m], files).Some?
    ensures |LO.LinkedCommands(layout, start, [m], files).value| == |files[m].commands|
  {
    assert [m][..0] == [];
  }
}
