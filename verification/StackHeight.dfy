/** How many operands translation leaves on the stack, known from the operations alone. */
module StackHeight {
  import opened Words
  import opened Pseudo
  import opened CodegenSpec
  import opened RegisterBalance
  import opened Registers
  import E = Expressions

  /** Operands an operation needs. */
  function Takes(op: PseudoOp): nat {
    if op.code == Use || op.code == UseConstant || op.code == Label || op.code == Jump then 0
    else if op.code == Assign || op.code == AssignR || IsBinary(op.code) then 2
    else if op.code == JumpIf || op.code == JumpNIf || op.code == Negative || op.code == BitNot then 1
    else 0
  }

  /** How an operation changes the number of operands. */
  function Delta(op: PseudoOp): int {
    if op.code == Use || op.code == UseConstant then 1
    else if op.code == Assign then (if op.compound == Nop || IsBinary(op.compound) then -2 else -1)
    else if op.code == AssignR then (if op.compound == Nop || IsBinary(op.compound) then -1 else 0)
    else if IsBinary(op.code) || op.code == JumpIf || op.code == JumpNIf then -1
    else 0
  }

  function Height(ops: seq<PseudoOp>): int {
    if ops == [] then 0 else Delta(ops[0]) + Height(ops[1..])
  }

  lemma OperatorHeight(env: Env, g: GState, op: PseudoOpCode)
    requires env.general < TWO64 && Operator(env, g, op).Some?
    ensures var g' := Operator(env, g, op).value;
            && |g'.stack| == |g.stack| + (if IsBinary(op) then -1 else 0)
            && |g.stack| >= (if IsBinary(op) then 2 else if op == Negative || op == BitNot then 1 else 0)
  {
    hide Combine, LowestFree, LoadOperand, IsBinary, ArithmeticCode, LogicCode;
  }

  lemma AssignmentHeight(env: Env, g: GState, op: PseudoOp)
    requires env.general < TWO64 && Assignment(env, g, op).Some? && (op.code == Assign || op.code == AssignR)
    ensures |g.stack| >= 2 && |Assignment(env, g, op).value.stack| == |g.stack| + Delta(op)
  {
    hide Operator, Conversion, LowestFree;
    if op.compound != Nop {
      var right := LoadOperand(env, g).value;
      OperatorHeight(env, Push(right.rest, right.frame), op.compound);
    }
  }

  lemma OperandCounts(op: PseudoOp)
    ensures op.code == Use || op.code == UseConstant ==> Takes(op) == 0 && Delta(op) == 1
    ensures op.code == Label || op.code == Jump ==> Takes(op) == 0 && Delta(op) == 0
    ensures op.code == JumpIf || op.code == JumpNIf ==> Takes(op) == 1 && Delta(op) == -1
    ensures op.code == Assign || op.code == AssignR ==> Takes(op) == 2
    ensures op.code !in {Use, UseConstant, Label, Jump, JumpIf, JumpNIf, Assign, AssignR} ==>
              && Takes(op) == (if IsBinary(op.code) then 2 else if op.code == Negative || op.code == BitNot then 1 else 0)
              && Delta(op) == (if IsBinary(op.code) then -1 else 0)
  {
  }

  /** An operation that is translated finds the operands it needs and changes their number as stated. */
  lemma EmitHeight(env: Env, g: GState, op: PseudoOp)
    requires env.general < TWO64 && EmitOp(env, g, op).Some?
    ensures |g.stack| >= Takes(op) && |EmitOp(env, g, op).value.stack| == |g.stack| + Delta(op)
  {
    hide Operator, Assignment, LoadOperand, UseFrame, ConstantFrame, Takes, Delta, IsBinary;
    OperandCounts(op);
    if op.code == Assign || op.code == AssignR {
      AssignmentHeight(env, g, op);
    } else if op.code != Use && op.code != UseConstant && op.code != Label && op.code != Jump && op.code != JumpIf && op.code != JumpNIf {
      OperatorHeight(env, g, op.code);
    }
  }

  /** Whatever the operations, a translation that succeeds leaves the number of operands they stand for. */
  lemma {:induction false} TranslationHeight(env: Env, g: GState, ops: seq<PseudoOp>)
    requires env.general < TWO64 && EmitAll(env, g, ops).Some?
    ensures |EmitAll(env, g, ops).value.stack| == |g.stack| + Height(ops)
    decreases |ops|
  {
    hide EmitOp, Delta;
    if ops != [] {
      EmitHeight(env, g, ops[0]);
      TranslationHeight(env, EmitOp(env, g, ops[0]).value, ops[1..]);
    }
  }

  lemma {:induction false} HeightAppend(x: seq<PseudoOp>, y: seq<PseudoOp>)
    ensures Height(x + y) == Height(x) + Height(y)
    decreases |x|
  {
    if x == [] {
      assert x + y == y;
    } else {
      assert (x + y)[0] == x[0] && (x + y)[1..] == x[1..] + y;
      HeightAppend(x[1..], y);
    }
  }

  lemma HeightOne(op: PseudoOp)
    ensures Height([op]) == Delta(op)
  {
    assert [op][1..] == [];
  }

  // ----- expressions and assignments -----

  lemma OperatorDelta(op: PseudoOpCode)
    ensures IsBinary(op) ==> Delta(Op(op)) == -1
    ensures op == Negative || op == BitNot ==> Delta(Op(op)) == 0
  {
  }

  /** An operation behind its operands. */
  lemma HeightLast(ops: seq<PseudoOp>, op: PseudoOp)
    ensures Height(ops + [op]) == Height(ops) + Delta(op)
  {
    HeightAppend(ops, [op]);
    HeightOne(op);
  }

  lemma {:induction false} ExpressionHeight(e: E.Expr)
    requires E.OperatorsOk(e)
    ensures Height(E.Compile(e)) == 1
  {
    hide Delta, Height, IsBinary;
    match e
    case Var(id) => LeafHeight(PseudoOp(Use, id, Nop));
    case Const(k) => LeafHeight(PseudoOp(UseConstant, k, Nop));
    case Bin(op, l, r) =>
      ExpressionHeight(l);
      ExpressionHeight(r);
      HeightAppend(E.Compile(l), E.Compile(r));
      HeightLast(E.Compile(l) + E.Compile(r), Op(op));
      OperatorDelta(op);
    case Un(op, a) =>
      ExpressionHeight(a);
      HeightLast(E.Compile(a), Op(op));
      OperatorDelta(op);
  }

  lemma LeafHeight(op: PseudoOp)
    requires op.code == Use || op.code == UseConstant
    ensures Height([op]) == 1
  {
    HeightOne(op);
  }

  /** Plain and compound assignments with operators on two operands. */
  predicate ShapeOk(a: E.Assignment) {
    && (a.compound == Nop || IsBinary(a.compound))
    && match a.source
       case Plain(e) => E.OperatorsOk(e)
       case Chain(inner) => ShapeOk(inner)
  }

  /** Assignments with any operator of the table: plain, combined with an operator on two operands, or complemented. */
  predicate SourcesOk(a: E.Assignment) {
    && (a.compound == Nop || a.compound == BitNot || IsBinary(a.compound))
    && match a.source
       case Plain(e) => E.OperatorsOk(e)
       case Chain(inner) => SourcesOk(inner)
  }

  /** How many of them complement their source. */
  function Complements(a: E.Assignment): nat {
    (if a.compound == BitNot then 1 else 0)
    + match a.source
      case Plain(_) => 0
      case Chain(inner) => Complements(inner)
  }

  lemma {:induction false} AnyAssignmentHeight(a: E.Assignment, code: PseudoOpCode)
    requires SourcesOk(a) && (code == Assign || code == AssignR)
    ensures Height(E.CompileAssignment(a, code)) == (if code == Assign then 0 else 1) + Complements(a)
    decreases a
  {
    hide Height, E.Compile;
    var use, last := PseudoOp(Use, a.target, Nop), PseudoOp(code, 0, a.compound);
    var middle := match a.source case Plain(e) => E.Compile(e) case Chain(inner) => E.CompileAssignment(inner, AssignR);
    match a.source {
      case Plain(e) => ExpressionHeight(e);
      case Chain(inner) => AnyAssignmentHeight(inner, AssignR);
    }
    LeafHeight(use);
    HeightAppend([use], middle);
    HeightLast([use] + middle, last);
  }

  /** A statement that is an assignment leaves the operand stack as it was exactly when no assignment in it complements its source. */
  lemma ComplementKeepsTarget(env: Env, g: GState, a: E.Assignment)
    requires SourcesOk(a) && env.general < TWO64 && EmitAll(env, g, E.CompileAssignment(a, Assign)).Some?
    ensures var g' := EmitAll(env, g, E.CompileAssignment(a, Assign)).value;
            |g'.stack| == |g.stack| + Complements(a) && (|g'.stack| == |g.stack| <==> ShapeOk(a))
  {
    hide EmitAll, Height, E.CompileAssignment;
    TranslationHeight(env, g, E.CompileAssignment(a, Assign));
    AnyAssignmentHeight(a, Assign);
    NoComplements(a);
  }

  lemma {:induction false} NoComplements(a: E.Assignment)
    requires SourcesOk(a)
    ensures Complements(a) == 0 <==> ShapeOk(a)
    decreases a
  {
    match a.source
    case Plain(_) =>
    case Chain(inner) => NoComplements(inner);
  }

  lemma LoadsTop(env: Env, g: GState, rest: seq<Frame>, f: Frame)
    requires env.general < TWO64 && g.stack == rest + [f]
    requires Loaded(f) || (f.dsize <= POINTER_SIZE && LowestFree(g.used, env.general).Some?)
    ensures LoadOperand(env, g).Some? && LoadOperand(env, g).value.rest.stack == rest
    ensures Loaded(f) ==> LoadOperand(env, g).value == Operand(f, g.(stack := rest))
  {
    hide LowestFree, LoadCommand, LoadedFrame;
    assert g.stack[..|g.stack| - 1] == rest;
  }

  lemma ComplementsTop(env: Env, g: GState, rest: seq<Frame>, f: Frame)
    requires env.general < TWO64 && g.stack == rest + [f] && Loaded(f)
    ensures Operator(env, g, BitNot).Some? && Operator(env, g, BitNot).value.stack == rest + [f]
  {
    hide LoadOperand, LogicCode, OperateOnce;
    LoadsTop(env, g, rest, f);
  }

  lemma ComplementStores(env: Env, g: GState, x: Variable, y: Variable)
    requires env.general < TWO64 && LowestFree(g.used, env.general).Some? && y.size <= POINTER_SIZE
    requires g.stack == [UseFrame(x)] + [UseFrame(y)]
    ensures Assignment(env, g, PseudoOp(Assign, 0, BitNot)).Some?
    ensures Assignment(env, g, PseudoOp(Assign, 0, BitNot)).value.stack == [UseFrame(x)]
  {
    hide LowestFree, LoadOperand, Conversion, StorePlace, Operator;
    var rest := [UseFrame(x)];
    LoadsTop(env, g, rest, UseFrame(y));
    var right := LoadOperand(env, g).value;
    var pushed := Push(right.rest, right.frame);
    ComplementsTop(env, pushed, rest, right.frame);
    LoadsTop(env, Operator(env, pushed, BitNot).value, rest, right.frame);
  }

  /** x ~= y is translated, and its target is still on the operand stack afterwards. */
  lemma ComplementExample()
    ensures var x := Variable(Int, 4, true, 0, 0);
            var env := Env(4, map[0 := x, 1 := x.(offset := 4)], []);
            var r := EmitAll(env, GState([], {}, []), E.CompileAssignment(E.Assignment(0, BitNot, E.Plain(E.Var(1))), Assign));
            r.Some? && r.value.stack == [UseFrame(x)]
  {
    hide Assignment, UseFrame, LowestFree, Operator, LoadOperand;
    var x := Variable(Int, 4, true, 0, 0);
    var y := x.(offset := 4);
    var env, g := Env(4, map[0 := x, 1 := y], []), GState([], {}, []);
    var ops := E.CompileAssignment(E.Assignment(0, BitNot, E.Plain(E.Var(1))), Assign);
    assert ops == [PseudoOp(Use, 0, Nop), PseudoOp(Use, 1, Nop), PseudoOp(Assign, 0, BitNot)];
    assert ops[1..][1..] == [ops[2]] && ops[1..][1..][1..] == [];
    var g2 := GState([UseFrame(x), UseFrame(y)], {}, []);
    assert EmitOp(env, g, ops[0]).value.stack + [UseFrame(y)] == g2.stack == [UseFrame(x)] + [UseFrame(y)];
    assert 0 !in g2.used && LowestFree(g2.used, env.general).Some?;
    ComplementStores(env, g2, x, y);
    assert EmitAll(env, g2, [ops[2]]) == EmitOp(env, g2, ops[2]);
  }

  lemma AssignmentCodeHeight(a: E.Assignment, code: PseudoOpCode)
    requires ShapeOk(a) && (code == Assign || code == AssignR)
    ensures Height(E.CompileAssignment(a, code)) == if code == Assign then 0 else 1
  {
    ShapedSources(a);
    NoComplements(a);
    AnyAssignmentHeight(a, code);
  }

  lemma {:induction false} ShapedSources(a: E.Assignment)
    requires ShapeOk(a)
    ensures SourcesOk(a)
    decreases a
  {
    match a.source
    case Plain(_) =>
    case Chain(inner) => ShapedSources(inner);
  }
}
