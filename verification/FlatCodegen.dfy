/** Code generation along flat code: the generator's state and the emitted commands at every operation. */
module FlatCodegen {
  import opened Words
  import opened ByteCode
  import opened Pseudo
  import opened LoweringSpec
  import opened StructuredMeaning
  import opened CodegenSpec
  import opened RegisterBalance
  import opened StackEvaluator
  import opened StackHeight
  import opened LevelCode

  /** A label or jump as a pseudo operation; ids are words. */
  function AsPseudo(op: POp): PseudoOp {
    match op
    case Plain(op) => op
    case Mark(id) => PseudoOp(Label, Wrap(id), Nop)
    case Goto(id) => PseudoOp(Jump, Wrap(id), Nop)
    case GotoUnless(id) => PseudoOp(JumpNIf, Wrap(id), Nop)
    case Unresolved(_) => PseudoOp(Jump, 0, Nop)
  }

  function PseudoCode(code: seq<POp>): seq<PseudoOp> {
    seq(|code|, k requires 0 <= k < |code| => AsPseudo(code[k]))
  }

  const FRESH := GState([], {}, [])

  /** The generator's state before operation k. */
  function StateAt(env: Env, code: seq<POp>, k: nat): (r: Option<GState>)
    requires k <= |code|
    ensures r.Some? ==> env.general < TWO64
  {
    if env.general < TWO64 then EmitAll(env, FRESH, PseudoCode(code[..k])) else None
  }

  lemma StateStep(env: Env, code: seq<POp>, k: nat)
    requires env.general < TWO64 && k < |code|
    ensures StateAt(env, code, k + 1) == match StateAt(env, code, k)
                                         case Some(g) => EmitOp(env, g, AsPseudo(code[k]))
                                         case None => None
  {
    hide EmitAll, EmitOp, AsPseudo;
    var op := AsPseudo(code[k]);
    assert PseudoCode(code[..k + 1]) == PseudoCode(code[..k]) + [op];
    EmitAllAppend(env, FRESH, PseudoCode(code[..k]), [op]);
    match StateAt(env, code, k)
    case Some(g) => EmitLast(env, g, op);
    case None =>
  }

  lemma {:induction false} StateBefore(env: Env, code: seq<POp>, k: nat, j: nat)
    requires k <= j <= |code| && StateAt(env, code, j).Some?
    ensures StateAt(env, code, k).Some?
    decreases j
  {
    hide EmitAll, EmitOp, StateAt;
    if k < j {
      StateStep(env, code, j - 1);
      StateBefore(env, code, k, j - 1);
    }
  }

  // ----- emitted commands -----

  /** Commands are only added; none of them is a label. */
  ghost predicate Adds(g: GState, g': GState) {
    g.code <= g'.code && forall i :: |g.code| <= i < |g'.code| ==> g'.code[i].code != JMP_LABEL
  }

  lemma AddsThen(g: GState, g1: GState, g2: GState)
    requires Adds(g, g1) && Adds(g1, g2)
    ensures Adds(g, g2)
  {
  }

  lemma LoadAdds(env: Env, g: GState)
    requires env.general < TWO64 && LoadOperand(env, g).Some?
    ensures Adds(g, LoadOperand(env, g).value.rest)
  {
  }

  ghost predicate NoLabels(code: seq<Command>) {
    forall i :: 0 <= i < |code| ==> code[i].code != JMP_LABEL
  }

  lemma PutAdds(g: GState, code: seq<Command>)
    requires NoLabels(code)
    ensures Adds(g, Put(g, code))
  {
  }

  /** A conversion, if any, and an operation. */
  lemma OperateNoLabels(conversion: seq<Command>, code: ByteOpCode, left: Word, right: Word)
    requires NoLabels(conversion) && code != JMP_LABEL
    ensures NoLabels(conversion + [Operate(code, left, right)]) && NoLabels([Operate(code, left, right)])
  {
  }

  lemma CombineNoLabel(op: PseudoOpCode, left: Frame, right: Frame)
    requires Combine(op, left, right).Some?
    ensures NoLabels(Combine(op, left, right).value.0)
  {
    hide ArithmeticCode, LogicCode, ConversionOf, CommonType, ConvertedFrame, NoLabels, Operate;
    var t := CommonType(left.dtype, right.dtype);
    OperationNoLabel(op, t);
    OperationNoLabel(op, UInt);
    ConversionNoLabel(left, right);
    OperateNoLabels(ConversionOf(left, right), ArithmeticCode(op, t), left.data, right.data);
    OperateNoLabels(ConversionOf(left, right), LogicCode(op, t), left.data, right.data);
    OperateNoLabels(ConversionOf(left, right), LogicCode(op, UInt), left.data, right.data);
  }

  lemma ConversionNoLabel(left: Frame, right: Frame)
    ensures NoLabels(ConversionOf(left, right))
  {
  }

  lemma OperationNoLabel(op: PseudoOpCode, t: Primitive)
    ensures ArithmeticCode(op, t) != JMP_LABEL && LogicCode(op, t) != JMP_LABEL
  {
  }

  lemma OperatorAdds(env: Env, g: GState, op: PseudoOpCode)
    requires env.general < TWO64 && Operator(env, g, op).Some?
    ensures Adds(g, Operator(env, g, op).value)
  {
    hide LoadOperand, Combine, IsBinary, Adds, ArithmeticCode, LogicCode;
    if IsBinary(op) {
      var right := LoadOperand(env, g).value;
      var left := LoadOperand(env, right.rest).value;
      LoadAdds(env, g);
      LoadAdds(env, right.rest);
      AddsThen(g, right.rest, left.rest);
      CombineNoLabel(op, left.frame, right.frame);
      var code := Combine(op, left.frame, right.frame).value.0;
      PutAdds(left.rest, code);
      AddsThen(g, left.rest, Put(left.rest, code));
      SameAdds(g, Put(left.rest, code), Operator(env, g, op).value);
    } else if op == Negative || op == BitNot {
      var x := LoadOperand(env, g).value;
      LoadAdds(env, g);
      OperationNoLabel(op, x.frame.dtype);
      var code := [OperateOnce(if op == Negative then ArithmeticCode(op, x.frame.dtype) else LogicCode(op, x.frame.dtype), x.frame.data)];
      PutAdds(x.rest, code);
      AddsThen(g, x.rest, Put(x.rest, code));
      SameAdds(g, Put(x.rest, code), Operator(env, g, op).value);
    } else {
      SameAdds(g, g, g);
    }
  }

  lemma SameAdds(g: GState, g1: GState, g2: GState)
    requires (Adds(g, g1) || g == g1) && g1.code == g2.code
    ensures Adds(g, g2)
  {
  }

  lemma StoreAdds(g: GState, left: Frame, right: Frame, keeps: bool)
    requires StoreTo(g, left, right, keeps).Some?
    ensures Adds(g, StoreTo(g, left, right, keeps).value)
  {
  }

  lemma AssignmentAdds(env: Env, g: GState, op: PseudoOp)
    requires env.general < TWO64 && Assignment(env, g, op).Some?
    ensures Adds(g, Assignment(env, g, op).value)
  {
    hide LoadOperand, Operator, StoreTo, Adds;
    var right := LoadOperand(env, g).value;
    var left := right.rest.stack[|right.rest.stack| - 1];
    LoadAdds(env, g);
    if op.compound == Nop {
      StoreAdds(right.rest, left, right.frame, op.code == AssignR);
      AddsThen(g, right.rest, StoreTo(right.rest, left, right.frame, op.code == AssignR).value);
      SameAdds(g, StoreTo(right.rest, left, right.frame, op.code == AssignR).value, Assignment(env, g, op).value);
    } else {
      var pushed := Push(right.rest, right.frame);
      SameAdds(g, right.rest, pushed);
      OperatorAdds(env, pushed, op.compound);
      var computed := Operator(env, pushed, op.compound).value;
      AddsThen(g, pushed, computed);
      LoadAdds(env, computed);
      var result := LoadOperand(env, computed).value;
      AddsThen(g, computed, result.rest);
      var h := if op.code == AssignR then Push(result.rest, left) else result.rest;
      SameAdds(g, result.rest, h);
      StoreAdds(h, left, result.frame, op.code == AssignR);
      AddsThen(g, h, StoreTo(h, left, result.frame, op.code == AssignR).value);
    }
  }

  /** Every operation only adds commands; only a label adds a label command. */
  lemma EmitAdds(env: Env, g: GState, op: PseudoOp)
    requires env.general < TWO64 && EmitOp(env, g, op).Some?
    ensures op.code != Label ==> Adds(g, EmitOp(env, g, op).value)
    ensures op.code == Label ==> EmitOp(env, g, op).value == Put(g, [Cmd(JMP_LABEL, Number(op.arg0), NoArg(), NoArg())])
  {
    hide LoadOperand, Operator, Assignment;
    if op.code == Assign || op.code == AssignR {
      AssignmentAdds(env, g, op);
    } else if op.code == JumpIf || op.code == JumpNIf {
      LoadAdds(env, g);
    } else if op.code != Use && op.code != UseConstant && op.code != Label && op.code != Jump {
      OperatorAdds(env, g, op.code);
    }
  }

  /** Commands stay where they are. */
  lemma {:induction false} CommandsStay(env: Env, code: seq<POp>, k: nat, j: nat)
    requires k <= j <= |code| && StateAt(env, code, k).Some? && StateAt(env, code, j).Some?
    ensures StateAt(env, code, k).value.code <= StateAt(env, code, j).value.code
    decreases j
  {
    hide EmitAll, EmitOp, StateAt;
    if k < j {
      StateStep(env, code, j - 1);
      EmitAdds(env, StateAt(env, code, j - 1).value, AsPseudo(code[j - 1]));
      CommandsStay(env, code, k, j - 1);
    }
  }

  /** A label command comes from a label, or from a label among the plain operations. */
  lemma {:induction false} LabelComesFrom(env: Env, code: seq<POp>, k: nat, p: nat) returns (j: nat)
    requires k <= |code| && StateAt(env, code, k).Some?
    requires p < |StateAt(env, code, k).value.code| && StateAt(env, code, k).value.code[p].code == JMP_LABEL
    ensures j < k && AsPseudo(code[j]).code == Label && AsPseudo(code[j]).arg0 == StateAt(env, code, k).value.code[p].arg0.data
    ensures StateAt(env, code, j).Some? && |StateAt(env, code, j).value.code| == p
    decreases k
  {
    hide EmitAll, EmitOp, StateAt, AsPseudo;
    NothingYet(env, code);
    assert k > 0;
    StateStep(env, code, k - 1);
    var g := StateAt(env, code, k - 1).value;
    EmitAdds(env, g, AsPseudo(code[k - 1]));
    if p < |g.code| {
      j := LabelComesFrom(env, code, k - 1, p);
    } else {
      j := k - 1;
    }
  }

  lemma NothingYet(env: Env, code: seq<POp>)
    requires env.general < TWO64
    ensures StateAt(env, code, 0) == Some(FRESH)
  {
    assert code[..0] == [];
  }

  // ----- the operand stack -----

  /** The number of operands on the generator's stack before operation k is the one the code was written for. */
  lemma {:induction false} LevelAt(env: Env, code: seq<POp>, k: nat)
    requires k <= |code| && Level(code, 0) && StateAt(env, code, k).Some?
    ensures Level(code[k..], |StateAt(env, code, k).value.stack|)
    decreases k
  {
    hide EmitAll, EmitOp, StateAt, Delta, Straight;
    if k == 0 {
      NothingYet(env, code);
      assert code[0..] == code;
    } else {
      StateBefore(env, code, k - 1, k);
      LevelAt(env, code, k - 1);
      StateStep(env, code, k - 1);
      assert code[k - 1..][0] == code[k - 1] && code[k - 1..][1..] == code[k..];
      EmitHeight(env, StateAt(env, code, k - 1).value, AsPseudo(code[k - 1]));
      JumpDeltas(code[k - 1]);
    }
  }

  lemma JumpDeltas(op: POp)
    ensures !op.Plain? ==> Delta(AsPseudo(op)) == if op.GotoUnless? then -1 else 0
  {
  }

  lemma {:induction false} AgreesAt(env: Env, code: seq<POp>, k: nat)
    requires k <= |code| && StateAt(env, code, k).Some?
    ensures Agrees(env, StateAt(env, code, k).value)
  {
    hide EmitAll;
    TranslationKeepsCount(env, FRESH, PseudoCode(code[..k]));
  }
}
