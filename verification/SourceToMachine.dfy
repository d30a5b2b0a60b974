/** From the tokens of an expression or an assignment to what the linked machine code does. */
module SourceToMachine {
  import opened Words
  import opened ByteCode
  import opened Machine
  import opened Pseudo
  import opened CodegenSpec
  import opened RegisterBalance
  import opened StackEvaluator
  import opened CodegenCorrect
  import opened Expressions
  import opened CompiledCode
  import opened Simulation
  import opened LinkedRun
  import opened CodegenRun
  import LS = LinkSpec
  import B = ByteMachine
  import V = VM
  import P = PrintedTrees
  import RT = RawTokens
  import T = ExpressionsTranslator
  import S = SourceExpressions
  import Tokens

  /** The commands that code generation adds. */
  function Tail(before: seq<Command>, after: seq<Command>): seq<Command> {
    if |before| <= |after| then after[|before|..] else []
  }

  lemma TailIs(before: seq<Command>, code: seq<Command>)
    ensures Tail(before, before + code) == code
  {
  }

  /** The linked program and the place in it where this module's commands stand. */
  ghost predicate Placed(ctx: Context, l: Link, c: B.Config, v: V.VMState, code: seq<Command>) {
    && l.layout == ctx.layout && l.space == ctx.space && LinkOk(l) && Related(l, c, v)
    && Holds(ctx, l.program, c.pc, code)
  }

  /** Straight-line code in a linked program is executed by some number of VM turns. */
  lemma PlacedRuns(ctx: Context, l: Link, c: B.Config, v: V.VMState, code: seq<Command>) returns (n: nat)
    requires Placed(ctx, l, c, v, code) && IsLine(ctx, code) && B.ConfigOk(ctx.space, c)
    ensures V.StateOk(l.space, v) && Matches(l, Exec(ctx, code, c), CodeRun(l, v, n))
  {
    hide B.Run, V.Run, Exec, IsLine, Matches, B.SupportedProgram, Related, LS.Linked, B.UniqueLabels;
    LinkShape(l);
    CodeRuns(ctx, l.program, code, c);
    n := RunSimulated(l, c, v, |code|);
  }

  /** The tokens are translated, behind g, to commands that stand in the linked program where it is now; the value is loaded at their end. */
  ghost predicate ExpressionPlaced(names: T.Names, e: P.Tree, constants: seq<Tokens.Text>, ctx: Context, g: GState, c: B.Config, l: Link,
                                   v: V.VMState)
  {
    && ctx.env.general < TWO64 && S.Translation(names, RT.SourceOf(e), constants).Emission?
    && var ops := S.Translation(names, RT.SourceOf(e), constants).code;
    && EmitAll(ctx.env, g, ops).Some? && LoadOperand(ctx.env, EmitAll(ctx.env, g, ops).value).Some?
    && Placed(ctx, l, c, v, Tail(g.code, LoadOperand(ctx.env, EmitAll(ctx.env, g, ops).value).value.rest.code))
  }

  ghost predicate AssignmentPlaced(names: T.Names, e: P.Tree, constants: seq<Tokens.Text>, ctx: Context, g: GState, c: B.Config, l: Link,
                                   v: V.VMState)
  {
    && ctx.env.general < TWO64 && S.Translation(names, RT.SourceOf(e), constants).Emission?
    && var ops := S.Translation(names, RT.SourceOf(e), constants).code;
    && EmitAll(ctx.env, g, ops).Some? && Placed(ctx, l, c, v, Tail(g.code, EmitAll(ctx.env, g, ops).value.code))
  }

  /** After n turns a register holds the answer's value and memory is as it was, or the division by zero has come up. */
  ghost predicate Leaves(l: Link, v: V.VMState, n: nat, r: Word, a: Answer) {
    && V.StateOk(l.space, v)
    && match a
       case Answer(w) =>
         && w.Value? && CodeRun(l, v, n).Next? && r < |CodeRun(l, v, n).state.regs|
         && CodeRun(l, v, n).state.regs[r] == w.bits && CodeRun(l, v, n).state.mem == v.mem
       case DividesByZero => CodeRun(l, v, n) == Fault(ZeroDivision)
       case IllTyped => false
  }

  /** The same in the register that holds the value when the tokens have been translated behind g. */
  ghost predicate LeavesLoaded(names: T.Names, e: P.Tree, constants: seq<Tokens.Text>, env: Env, g: GState, l: Link, v: V.VMState, n: nat,
                               a: Answer)
  {
    && env.general < TWO64 && S.Translation(names, RT.SourceOf(e), constants).Emission?
    && var ops := S.Translation(names, RT.SourceOf(e), constants).code;
    && EmitAll(env, g, ops).Some? && LoadOperand(env, EmitAll(env, g, ops).value).Some?
    && Leaves(l, v, n, LoadOperand(env, EmitAll(env, g, ops).value).value.frame.data, a)
  }

  /** After n turns memory is what the effect says, or the division by zero has come up. */
  ghost predicate Does(l: Link, v: V.VMState, n: nat, effect: Effect) {
    && V.StateOk(l.space, v)
    && match effect
       case Wrote(mem) => CodeRun(l, v, n).Next? && CodeRun(l, v, n).state.mem == mem
       case Failed(answer) => answer.DividesByZero? && CodeRun(l, v, n) == Fault(ZeroDivision)
  }

  /**
   * The tokens of an expression, translated, compiled and linked: on the machine, its code either leaves the value of the expression in
   * the register of the operand, with memory unchanged, or faults on a division by zero, as the expression says.
   */
  lemma SourceExpressionRuns(names: T.Names, e: P.Tree, constants: seq<Tokens.Text>, ctx: Context, g: GState, s: EState,
                             c: B.Config, l: Link, v: V.VMState) returns (n: nat)
    requires Refines(ctx, g, s, c) && ExpressionPlaced(names, e, constants, ctx, g, c, l, v)
    requires P.TreeOk(e, false) && S.Denoted(names, e, constants).Denotes? && Covered(S.Denoted(names, e, constants).expr)
    ensures OperatorsOk(S.Denoted(names, e, constants).expr) && ContextOk(ctx) && |s.mem| == ctx.space.end
    ensures LeavesLoaded(names, e, constants, ctx.env, g, l, v, n, Evaluate(ctx, s.mem, S.Denoted(names, e, constants).expr))
  {
    hide S.Translation, S.Denoted, EmitAll, LoadOperand, Evaluate, Exec, ContextOk, Refines, Computed, IsLine, Placed, V.Run, LS.Linked, Matches,
         Leaves;
    var expr := S.Denoted(names, e, constants).expr;
    Unfold(ctx, g, s, c);
    S.ExpressionTranslated(names, e, constants);
    var code, o := CompiledExpression(ctx, g, s, c, expr);
    var x := LoadOperand(ctx.env, EmitAll(ctx.env, g, Compile(expr)).value).value;
    TailIs(g.code, code);
    n := PlacedRuns(ctx, l, c, v, code);
    Landing(ctx, g, s, c, l, v, x, Evaluate(ctx, s.mem, expr), o, n, code);
  }

  /** The machine's state after the code of an expression. */
  lemma Landing(ctx: Context, g: GState, s: EState, c: B.Config, l: Link, v: V.VMState, x: Operand, a: Answer, o: Outcome<B.Config>, n: nat,
                code: seq<Command>)
    requires Computed(ctx, g, s, c, x, a, o) && Placed(ctx, l, c, v, code) && V.StateOk(l.space, v) && Matches(l, o, CodeRun(l, v, n))
    ensures Leaves(l, v, n, x.frame.data, a)
  {
    hide V.Run, LS.Linked, Refines, LinkOk, B.SupportedProgram;
  }

  /** The tokens of an assignment, translated, compiled and linked: the machine's memory becomes what the assignment says, or the code faults as it says. */
  lemma SourceAssignmentRuns(names: T.Names, e: P.Tree, constants: seq<Tokens.Text>, ctx: Context, g: GState, s: EState,
                             c: B.Config, l: Link, v: V.VMState) returns (n: nat)
    requires Refines(ctx, g, s, c) && AssignmentPlaced(names, e, constants, ctx, g, c, l, v)
    requires P.TreeOk(e, false) && S.DenotedAssignment(names, e, constants).Assigns?
    requires AssignmentOk(ctx, S.DenotedAssignment(names, e, constants).a)
    ensures ContextOk(ctx) && |s.mem| == ctx.space.end
    ensures Does(l, v, n, RunAssignment(ctx, s.mem, S.DenotedAssignment(names, e, constants).a))
  {
    hide S.Translation, S.DenotedAssignment, EmitAll, RunAssignment, Exec, ContextOk, Refines, IsLine, Placed, V.Run, LS.Linked, AssignmentOk,
         CompileAssignment, Matches, Does;
    var a := S.DenotedAssignment(names, e, constants).a;
    Unfold(ctx, g, s, c);
    S.AssignmentTranslated(names, e, constants);
    var code, o := CompiledAssignment(ctx, g, s, c, a);
    TailIs(g.code, code);
    n := PlacedRuns(ctx, l, c, v, code);
    SameOutcome(l, o, v, n, RunAssignment(ctx, s.mem, a));
  }

  lemma SameOutcome(l: Link, o: Outcome<B.Config>, v: V.VMState, n: nat, effect: Effect)
    requires V.StateOk(l.space, v) && Matches(l, o, CodeRun(l, v, n))
    requires match effect
             case Wrote(mem) => o.Next? && o.state.mem == mem
             case Failed(answer) => answer.DividesByZero? && o == Fault(ZeroDivision)
    ensures Does(l, v, n, effect)
  {
    hide V.Run, LS.Linked;
  }

  /** Translation may start at any point of any run: with no operands and no registers taken it agrees with every configuration. */
  lemma FreshStartRefines(ctx: Context, c: B.Config)
    requires ContextOk(ctx) && B.ConfigOk(ctx.space, c)
    ensures Refines(ctx, GState([], {}, []), EState([], c.mem), c)
  {
    assert ctx.env.general <= B.GENERAL_REGISTERS;
  }
}
