/** Compiled expressions and assignments on the byte machine: value, memory, faults and registers. */
module CompiledCode {
  import opened Words
  import opened ByteCode
  import opened Machine
  import opened Pseudo
  import opened CodegenSpec
  import opened RegisterBalance
  import opened StackEvaluator
  import opened CodegenCorrect
  import opened CodegenStatic
  import opened CodegenRun
  import opened Expressions
  import opened StackHeight
  import B = ByteMachine

  // ----- straight-line code inside a program -----

  /** The program holds this module's code at p. */
  ghost predicate Holds(ctx: Context, program: seq<B.Item>, p: nat, code: seq<Command>) {
    p + |code| <= |program| && forall k :: p <= k < p + |code| ==> program[k] == B.Item(ctx.m, code[k - p])
  }

  lemma JumpFree(ctx: Context, program: seq<B.Item>, i: B.Instr, c: B.Config)
    requires B.ConfigOk(ctx.space, c) && B.Supported(ctx.layout, [], ctx.m, i)
    ensures B.Supported(ctx.layout, program, ctx.m, i)
    ensures B.StepInstr(ctx.layout, ctx.space, program, ctx.m, i, c) == B.StepInstr(ctx.layout, ctx.space, [], ctx.m, i, c)
  {
  }

  /** Running a program through straight-line code is executing that code. */
  lemma {:induction false} CodeRuns(ctx: Context, program: seq<B.Item>, code: seq<Command>, c: B.Config)
    requires B.ConfigOk(ctx.space, c) && B.SupportedProgram(ctx.layout, program)
    requires IsLine(ctx, code) && Holds(ctx, program, c.pc, code)
    ensures B.Run(ctx.layout, ctx.space, program, c, |code|) == Exec(ctx, code, c)
    decreases |code|
  {
    hide B.Decode, B.Supported, B.StepInstr, B.SupportedProgram;
    if code != [] {
      var i := B.Decode(code[0]);
      assert program[c.pc].cmd == code[0];
      JumpFree(ctx, program, i, c);
      LineKeeps(ctx, code[0], c);
      B.StepKeepsOk(ctx.layout, ctx.space, program, c);
      var r := StepLine(ctx, code[0], c);
      assert B.Step(ctx.layout, ctx.space, program, c) == r;
      if r.Next? {
        CodeRuns(ctx, program, code[1..], r.state);
      }
    }
  }

  // ----- expressions -----

  /** What the code of an expression, and of the load x that consumes it, does to a configuration. */
  ghost predicate Computed(ctx: Context, g: GState, s: EState, c: B.Config, x: Operand, a: Answer, o: Outcome<B.Config>) {
    match a
    case Answer(v) =>
      && v.Value? && o.Next? && x.frame.data < |o.state.regs| && o.state.regs[x.frame.data] == v.bits
      && x.frame.dtype == v.kind && o.state.mem == c.mem
      && Refines(ctx, x.rest, s, o.state) && x.frame.data !in Owned(x.rest.stack)
      && Spares(Reserved(g), c, o.state)
    case DividesByZero => o == Fault(ZeroDivision)
    case IllTyped => false
  }

  /** The code of an expression and of the load that consumes it leaves the value in a register and disturbs nothing else. */
  lemma CompiledExpression(ctx: Context, g: GState, s: EState, c: B.Config, e: Expr)
    returns (code: seq<Command>, o: Outcome<B.Config>)
    requires Refines(ctx, g, s, c) && OperatorsOk(e) && Covered(e) && EmitAll(ctx.env, g, Compile(e)).Some?
    requires LoadOperand(ctx.env, EmitAll(ctx.env, g, Compile(e)).value).Some?
    ensures var x := LoadOperand(ctx.env, EmitAll(ctx.env, g, Compile(e)).value).value;
            && x.rest.code == g.code + code && IsLine(ctx, code) && o == Exec(ctx, code, c)
            && Computed(ctx, g, s, c, x, Evaluate(ctx, s.mem, e), o)
  {
    hide EmitAll, LoadOperand, Evaluate, Exec, ContextOk, CellOk, RunPseudo, Compile, Refines, Outcomes, Computed, Pushed,
         Spares, IsLine, EvalAll, Straight, Owned, Distinct;
    Unfold(ctx, g, s, c);
    LazyIsEager(ctx, s, e);
    var g1, a := EmitAll(ctx.env, g, Compile(e)).value, Evaluate(ctx, s.mem, e);
    RunIsEval(ctx, s, Compile(e));
    var code1, o1 := TranslationRefines(ctx, g, s, c, Compile(e));
    var r := EvalAll(ctx, s, Compile(e));
    OutcomeKind(ctx, g, g1, s, r, c, code1, o1);
    OutcomeCode(ctx, g, g1, s, r, c, code1, o1);
    PushedResult(ctx, s, r, a);
    if r.Done? {
      TranslationKeepsCount(ctx.env, g, Compile(e));
      PushedBelow(ctx, s, r, a);
      code, o := ThenLoad(ctx, g, g1, s, r.state, c, o1.state, code1, a.value);
    } else {
      DenoteSound(ctx, g, s, c);
      TranslationSound(ctx, g, Compile(e));
      code := ThenLoadCode(ctx, g, g1, c, code1, ZeroDivision);
      o := o1;
      FaultComputed(ctx, g, s, c, LoadOperand(ctx.env, g1).value, a, o);
    }
  }

  /** The load after a translation that ran. */
  lemma ThenLoad(ctx: Context, g: GState, g1: GState, s: EState, s1: EState, c: B.Config, c1: B.Config,
                 code1: seq<Command>, v: Cell)
    returns (code: seq<Command>, o: Outcome<B.Config>)
    requires B.ConfigOk(ctx.space, c) && IsLine(ctx, code1) && Exec(ctx, code1, c) == Next(c1)
    requires g1.code == g.code + code1 && c.mem == s.mem
    requires Refines(ctx, g1, s1, c1) && LoadOperand(ctx.env, g1).Some? && s1.stack != [] && Drop(s1, 1) == s
    requires CellOk(ctx, Top(s1)) && SpaceOk(ctx.space) && |s.mem| == ctx.space.end && Read(ctx, s.mem, Top(s1)) == v
    requires Reserved(g) <= Reserved(g1) && Spares(Reserved(g), c, c1)
    ensures var x := LoadOperand(ctx.env, g1).value;
            && x.rest.code == g.code + code && IsLine(ctx, code) && o == Exec(ctx, code, c)
            && Computed(ctx, g, s, c, x, Answer(v), o)
  {
    hide LoadOperand, Exec, ContextOk, CellOk, Refines, Computed, Spares, LineOk, Fetch;
    Unfold(ctx, g1, s1, c1);
    var code2, c2 := LoadRefines(ctx, g1, s1, c1);
    code, o := code1 + code2, Next(c2);
    ExecAppend(ctx, code1, code2, c);
    LoadedAnswer(ctx, g, g1, s, s1, c, c1, c2, v);
    assert g.code + code1 + code2 == g.code + code;
  }

  /** The load after a translation that faulted is never reached. */
  lemma ThenLoadCode(ctx: Context, g: GState, g1: GState, c: B.Config, code1: seq<Command>, e: Error)
    returns (code: seq<Command>)
    requires B.ConfigOk(ctx.space, c) && IsLine(ctx, code1) && Exec(ctx, code1, c) == Fault(e)
    requires g1.code == g.code + code1 && Ready(ctx, g1) && LoadOperand(ctx.env, g1).Some?
    ensures LoadOperand(ctx.env, g1).value.rest.code == g.code + code && IsLine(ctx, code) && Exec(ctx, code, c) == Fault(e)
  {
    hide LoadOperand, Exec, ContextOk, LineOk, Sound;
    LoadSound(ctx, g1);
    var code2 := ExtendsTail(ctx, g1, LoadOperand(ctx.env, g1).value.rest);
    code := code1 + code2;
    ExecAppend(ctx, code1, code2, c);
    assert g.code + code1 + code2 == g.code + code;
  }

  lemma FaultComputed(ctx: Context, g: GState, s: EState, c: B.Config, x: Operand, a: Answer, o: Outcome<B.Config>)
    requires a.DividesByZero? && o == Fault(ZeroDivision)
    ensures Computed(ctx, g, s, c, x, a, o)
  {
  }

  lemma LoadedAnswer(ctx: Context, g: GState, g1: GState, s: EState, s1: EState, c: B.Config, c1: B.Config, c2: B.Config, v: Cell)
    requires Agrees(ctx.env, g1) && LoadOperand(ctx.env, g1).Some? && s1.stack != [] && Drop(s1, 1) == s
    requires c1.mem == c.mem == s.mem
    requires CellOk(ctx, Top(s1)) && SpaceOk(ctx.space) && |s.mem| == ctx.space.end && Read(ctx, s.mem, Top(s1)) == v
    requires var x := LoadOperand(ctx.env, g1).value;
             && Refines(ctx, x.rest, s, c2) && Spares(g1.used, c1, c2)
             && x.frame.data < |c2.regs| && c2.regs[x.frame.data] == Fetch(ctx, s1.mem, Top(s1))
             && x.frame.dtype == Top(s1).kind
    requires Reserved(g) <= Reserved(g1) && Spares(Reserved(g), c, c1)
    ensures Computed(ctx, g, s, c, LoadOperand(ctx.env, g1).value, Answer(v), Next(c2))
  {
    hide LoadOperand, Fetch, CellOk;
    LoadAgrees(ctx.env, g1);
    Unfold(ctx, LoadOperand(ctx.env, g1).value.rest, s, c2);
  }

  lemma PushedBelow(ctx: Context, s: EState, r: Result, a: Answer)
    requires Pushed(ctx, s, r, a) && a.Answer?
    ensures r.Done? && r.state.stack != [] && Drop(r.state, 1) == s && CellOk(ctx, Top(r.state)) && SpaceOk(ctx.space) && |s.mem| == ctx.space.end
    ensures Read(ctx, s.mem, Top(r.state)) == a.value
  {
    hide CellOk;
    assert r.state.stack[..|r.state.stack| - 1] == s.stack;
  }

  lemma RunIsEval(ctx: Context, s: EState, ops: seq<PseudoOp>)
    requires StateOk(ctx, s) && AllStraight(ops)
    ensures forall op :: op in ops ==> Straight(op)
    ensures RunPseudo(ctx, s, ops) == EvalAll(ctx, s, ops)
  {
    StraightIn(ops);
  }

  lemma OutcomeCode(ctx: Context, g: GState, g': GState, s: EState, r: Result, c: B.Config, code: seq<Command>,
                    o: Outcome<B.Config>)
    requires Outcomes(ctx, g, g', s, r, c, code, o)
    ensures B.ConfigOk(ctx.space, c) && g'.code == g.code + code && IsLine(ctx, code) && Exec(ctx, code, c) == o
    ensures r.Done? ==> o.Next? && Spares(Reserved(g), c, o.state)
  {
  }

  // ----- assignments -----

  lemma {:induction false} KeptAppend(x: seq<PseudoOp>, y: seq<PseudoOp>)
    ensures Kept(x + y) == Kept(x) + Kept(y)
    decreases |x|
  {
    if x == [] {
      assert x + y == y;
    } else {
      assert (x + y)[0] == x[0] && (x + y)[1..] == x[1..] + y;
      KeptAppend(x[1..], y);
    }
  }

  lemma {:induction false} ExpressionKeepsNothing(e: Expr)
    requires OperatorsOk(e)
    ensures Kept(Compile(e)) == 0
  {
    match e
    case Var(_) =>
    case Const(_) =>
    case Bin(op, l, r) =>
      ExpressionKeepsNothing(l);
      ExpressionKeepsNothing(r);
      NotAnOperand(op);
      KeptAppend(Compile(l), Compile(r));
      KeptAppend(Compile(l) + Compile(r), [Op(op)]);
    case Un(op, a) =>
      ExpressionKeepsNothing(a);
      NotAnOperand(op);
      KeptAppend(Compile(a), [Op(op)]);
  }

  /** How many assignments are nested inside this one. */
  function Nested(a: Expressions.Assignment): nat {
    match a.source
    case Plain(_) => 0
    case Chain(inner) => 1 + Nested(inner)
  }

  lemma {:induction false} AssignmentKeeps(a: Expressions.Assignment, code: PseudoOpCode)
    requires ShapeOk(a) && (code == Assign || code == AssignR)
    ensures Kept(CompileAssignment(a, code)) == Nested(a) + if code == AssignR then 1 else 0
    decreases a
  {
    hide Compile, Kept;
    var use, last := PseudoOp(Use, a.target, Nop), PseudoOp(code, 0, a.compound);
    var middle := match a.source case Plain(e) => Compile(e) case Chain(inner) => CompileAssignment(inner, AssignR);
    match a.source {
      case Plain(e) => ExpressionKeepsNothing(e);
      case Chain(inner) => AssignmentKeeps(inner, AssignR);
    }
    KeptAppend([use], middle);
    KeptAppend([use] + middle, [last]);
    KeptOne(use);
    KeptOne(last);
  }

  lemma KeptOne(op: PseudoOp)
    ensures Kept([op]) == if Keeps(op) then 1 else 0
  {
    assert [op][1..] == [];
  }

  lemma {:induction false} OkHasShape(ctx: Context, a: Expressions.Assignment)
    requires AssignmentOk(ctx, a)
    ensures ShapeOk(a)
    decreases a
  {
    match a.source
    case Plain(_) =>
    case Chain(inner) => OkHasShape(ctx, inner);
  }

  /**
   * The code of an assignment statement changes exactly the memory its meaning says, or stops at a division by zero.
   * Afterwards one register per nested assignment stays reserved, and no other.
   */
  lemma CompiledAssignment(ctx: Context, g: GState, s: EState, c: B.Config, a: Expressions.Assignment)
    returns (code: seq<Command>, o: Outcome<B.Config>)
    requires Refines(ctx, g, s, c) && AssignmentOk(ctx, a) && EmitAll(ctx.env, g, CompileAssignment(a, Assign)).Some?
    ensures var g' := EmitAll(ctx.env, g, CompileAssignment(a, Assign)).value;
            && g'.code == g.code + code && IsLine(ctx, code) && o == Exec(ctx, code, c)
            && |Reserved(g')| == |Reserved(g)| + Nested(a)
            && match RunAssignment(ctx, s.mem, a) {
                 case Wrote(mem) =>
                   && o.Next? && o.state.mem == mem && Refines(ctx, g', EState(s.stack, mem), o.state)
                   && Spares(Reserved(g), c, o.state)
                 case Failed(answer) => answer.DividesByZero? && o == Fault(ZeroDivision)
               }
  {
    hide EmitAll, RunAssignment, Exec, ContextOk, CellOk, RunPseudo, CompileAssignment, Refines, Outcomes, AssignmentOk;
    Unfold(ctx, g, s, c);
    var ops := CompileAssignment(a, Assign);
    AssignmentMeaning(ctx, s, a, Assign);
    RunIsEval(ctx, s, ops);
    var g' := EmitAll(ctx.env, g, ops).value;
    code, o := TranslationRefines(ctx, g, s, c, ops);
    var r := EvalAll(ctx, s, ops);
    OutcomeKind(ctx, g, g', s, r, c, code, o);
    OutcomeCode(ctx, g, g', s, r, c, code, o);
    TranslationKeepsCount(ctx.env, g, ops);
    OkHasShape(ctx, a);
    AssignmentKeeps(a, Assign);
    assert s.stack + [] == s.stack;
    if r.Done? {
      Unfold(ctx, g', r.state, o.state);
    }
  }

  /**
   * However its run ends, an assignment statement translated from an empty operand stack leaves it empty and one register taken for each
   * nested assignment: without any, every register is given back.
   */
  lemma StatementGivesRegistersBack(env: Env, g: GState, a: Expressions.Assignment)
    requires Agrees(env, g) && ShapeOk(a) && g.stack == [] && EmitAll(env, g, CompileAssignment(a, Assign)).Some?
    ensures var g' := EmitAll(env, g, CompileAssignment(a, Assign)).value;
            g'.stack == [] && |g'.used| == |g.used| + Nested(a) && (Nested(a) == 0 ==> g'.used == g.used)
  {
    hide EmitAll, CompileAssignment, ShapeOk;
    var g', ops := EmitAll(env, g, CompileAssignment(a, Assign)).value, CompileAssignment(a, Assign);
    TranslationHeight(env, g, ops);
    AssignmentCodeHeight(a, Assign);
    TranslationKeepsCount(env, g, ops);
    AssignmentKeeps(a, Assign);
    assert Reserved(g) == g.used && Reserved(g') == g'.used;
    if Nested(a) == 0 {
      StatementRestoresRegisters(env, g, ops);
    }
  }
}
