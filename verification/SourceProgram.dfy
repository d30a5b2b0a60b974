/** Structured programs written down in tokens: what their statements and conditions mean, and what the machine does with them. */
module SourceProgram {
  import opened Words
  import opened ByteCode
  import opened Machine
  import opened Pseudo
  import opened LoweringSpec
  import opened StructuredMeaning
  import opened StackEvaluator
  import opened StackHeight
  import opened ConstantsTable
  import opened LevelCode
  import opened CompiledProgram
  import opened ProgramToMachine
  import opened ProgramStart
  import opened LoweringCorrect
  import opened FirstBranch
  import opened BreakScoping
  import opened FlatCodegen
  import opened Syntax
  import CodeSize
  import CC = CompiledCode
  import E = Expressions
  import L = Literals
  import LO = LinkOrder
  import LS = LinkSpec
  import O = ObjectFormat
  import OR = ObjectRoundTrip
  import P = PrintedTrees
  import ROD = ReadOnlyData
  import RT = RawTokens
  import S = SourceExpressions
  import Sim = Simulation
  import T = ExpressionsTranslator
  import U = Startup
  import V = VM
  import Tokens

  // ----- the code of a statement, whenever it is translated -----

  /** Translating one statement after the other numbers its constants as translating with all constants known does. */
  lemma {:induction false} StableExpression(names: T.Names, e: P.Tree, constants: seq<Tokens.Text>, table: seq<Tokens.Text>)
    requires S.Denoted(names, e, constants).Denotes? && S.Denoted(names, e, constants).constants <= table
    ensures S.Denoted(names, e, table) == S.Denotes(S.Denoted(names, e, constants).expr, table)
    decreases e
  {
    match e
    case Leaf(g) =>
      if g.token.kind == Tokens.Literal {
        PrefixIndex(Interned(constants, g.token.text), table, g.token.text);
      }
    case Infix(op, l, r) =>
      var x := S.Denoted(names, l, constants);
      L.ConstantsGrow(names, r, x.constants);
      StableExpression(names, l, constants, table);
      StableExpression(names, r, x.constants, table);
    case Prefix(_, a) => StableExpression(names, a, constants, table);
    case Paren(a) => StableExpression(names, a, constants, table);
  }

  lemma {:induction false} StableAssignment(names: T.Names, e: P.Tree, constants: seq<Tokens.Text>, table: seq<Tokens.Text>)
    requires S.DenotedAssignment(names, e, constants).Assigns? && S.DenotedAssignment(names, e, constants).constants <= table
    ensures S.DenotedAssignment(names, e, table) == S.Assigns(S.DenotedAssignment(names, e, constants).a, table)
    decreases e
  {
    hide S.Denoted;
    match e
    case Paren(a) => StableAssignment(names, a, constants, table);
    case Infix(op, l, r) =>
      if S.IsAssignment(S.Bare(r)) {
        StableAssignment(names, r, constants, table);
      } else {
        StableExpression(names, r, constants, table);
      }
  }

  /** What each statement's tokens are translated to, the program's constants being known. */
  function SourceCode(names: T.Names, table: seq<Tokens.Text>): ExpressionCode {
    (tokens: seq<Tokens.Token>) => match S.Translation(names, tokens, table) case Emission(code, _) => code case _ => []
  }

  /** The code a statement is given in its turn, with the constants interned so far, is this code. */
  lemma CodeInTurn(names: T.Names, e: P.Tree, constants: seq<Tokens.Text>, table: seq<Tokens.Text>)
    requires P.TreeOk(e, false)
    ensures S.Denoted(names, e, constants).Denotes? && S.Denoted(names, e, constants).constants <= table ==>
              S.Translation(names, RT.SourceOf(e), constants)
              == T.Emission(SourceCode(names, table)(RT.SourceOf(e)), S.Denoted(names, e, constants).constants)
    ensures S.DenotedAssignment(names, e, constants).Assigns? && S.DenotedAssignment(names, e, constants).constants <= table ==>
              S.Translation(names, RT.SourceOf(e), constants)
              == T.Emission(SourceCode(names, table)(RT.SourceOf(e)), S.DenotedAssignment(names, e, constants).constants)
  {
    hide S.Translation, S.Denoted, S.DenotedAssignment, E.Compile, E.CompileAssignment;
    if S.Denoted(names, e, constants).Denotes? && S.Denoted(names, e, constants).constants <= table {
      StableExpression(names, e, constants, table);
      S.ExpressionTranslated(names, e, constants);
      S.ExpressionTranslated(names, e, table);
    }
    if S.DenotedAssignment(names, e, constants).Assigns? && S.DenotedAssignment(names, e, constants).constants <= table {
      StableAssignment(names, e, constants, table);
      S.AssignmentTranslated(names, e, constants);
      S.AssignmentTranslated(names, e, table);
    }
  }

  // ----- what statements and conditions mean -----

  lemma {:induction false} OpsRun(ctx: Context, ops: seq<PseudoOp>, s: EState)
    requires StateOk(ctx, s) && E.AllStraight(ops)
    ensures RunOps(MeaningOf(ctx), ops, Done(s)) == E.RunPseudo(ctx, s, ops)
    decreases |ops|
  {
    hide StateOk, EvalOp, Straight;
    E.StraightIn(ops);
    if ops != [] {
      EvalKeepsOk(ctx, s, ops[0]);
      var r := EvalOp(ctx, s, ops[0]);
      assert Straight(ops[0]);
      ActIs(ctx, ops[0], s);
      if r.Done? {
        OpsRun(ctx, ops[1..], r.state);
        E.StraightIn(ops[1..]);
      } else {
        OpsStay(ctx, ops[1..], r);
      }
    }
  }

  lemma ActIs(ctx: Context, op: PseudoOp, s: EState)
    requires StateOk(ctx, s) && Straight(op)
    ensures MeaningOf(ctx).act(op, Done(s)) == EvalOp(ctx, s, op)
  {
    hide StateOk, EvalOp, Straight;
  }

  lemma {:induction false} OpsStay(ctx: Context, ops: seq<PseudoOp>, r: Result)
    requires !r.Done?
    ensures RunOps(MeaningOf(ctx), ops, r) == r
    decreases |ops|
  {
    if ops != [] {
      OpsStay(ctx, ops[1..], r);
    }
  }

  function AfterEffect(effect: E.Effect): Result {
    match effect
    case Wrote(mem) => InMemory(mem)
    case Failed(answer) => if answer.DividesByZero? then DivisionByZero else Stuck
  }

  /** An assignment is a statement, and does what its tree says, every literal standing for its text. */
  lemma StatementMeaning(names: T.Names, table: seq<Tokens.Text>, decode: L.Decoder, ctx: Context, e: P.Tree, mem: Memory)
    requires P.TreeOk(e, false) && L.Stores(names, ctx, e) && S.DenotedAssignment(names, e, table).Assigns?
    requires S.DenotedAssignment(names, e, table).constants == table && L.Carries(ctx, table, decode)
    requires ContextOk(ctx) && |mem| == ctx.space.end
    ensures |ctx.layout.constantAddresses| == |table| && Statement(SourceCode(names, table), RT.SourceOf(e))
    ensures RunOps(MeaningOf(ctx), SourceCode(names, table)(RT.SourceOf(e)), InMemory(mem))
         == AfterEffect(L.TreeEffect(names, ctx, mem, decode, L.AddressIn(ctx, table), e))
  {
    hide ContextOk, L.Stores, S.DenotedAssignment, S.Translation, E.CompileAssignment, L.TreeEffect, E.RunAssignment, MeaningOf, E.AssignmentOk,
         E.RunPseudo, L.AddressIn;
    L.CarriedLength(ctx, table, decode);
    hide L.Carries;
    L.DenotedEffect(names, e, table, ctx, mem, table, decode);
    S.AssignmentTranslated(names, e, table);
    var a, s := S.DenotedAssignment(names, e, table).a, EState([], mem);
    E.AssignmentMeaning(ctx, s, a, Assign);
    OpsRun(ctx, E.CompileAssignment(a, Assign), s);
    CC.OkHasShape(ctx, a);
    AssignmentCodeHeight(a, Assign);
  }

  /** An expression is a condition, and holds when its value is not zero. */
  lemma ConditionMeaning(names: T.Names, table: seq<Tokens.Text>, decode: L.Decoder, ctx: Context, e: P.Tree, mem: Memory)
    requires P.TreeOk(e, false) && L.Operates(names, e) && S.Denoted(names, e, table).Denotes?
    requires S.Denoted(names, e, table).constants == table && L.Carries(ctx, table, decode)
    requires ContextOk(ctx) && |mem| == ctx.space.end
    ensures |ctx.layout.constantAddresses| == |table|
    ensures var code := SourceCode(names, table)(RT.SourceOf(e)); E.AllStraight(code) && Height(code) == 1
    ensures var r := RunOps(MeaningOf(ctx), SourceCode(names, table)(RT.SourceOf(e)), InMemory(mem));
            match L.TreeValue(names, ctx, mem, decode, L.AddressIn(ctx, table), e)
            case Answer(v) => v.Value? && (MeaningOf(ctx).test(r) <==> v.bits != 0) && MeaningOf(ctx).drop(r) == InMemory(mem)
            case DividesByZero => r == DivisionByZero
            case IllTyped => r == Stuck
  {
    hide ContextOk, L.Operates, S.Denoted, S.Translation, E.Compile, L.TreeValue, E.Evaluate, MeaningOf, E.RunPseudo, L.AddressIn, E.Pushed;
    L.CarriedLength(ctx, table, decode);
    hide L.Carries;
    L.DenotedValue(names, e, table, ctx, mem, table, decode);
    S.ExpressionTranslated(names, e, table);
    var x, s := S.Denoted(names, e, table).expr, EState([], mem);
    E.LazyIsEager(ctx, s, x);
    OpsRun(ctx, E.Compile(x), s);
    ExpressionHeight(x);
    PushedCondition(ctx, mem, E.RunPseudo(ctx, s, E.Compile(x)), E.Evaluate(ctx, mem, x));
  }

  lemma PushedCondition(ctx: Context, mem: Memory, r: Result, a: E.Answer)
    requires E.Pushed(ctx, EState([], mem), r, a)
    ensures match a
            case Answer(v) => v.Value? && (MeaningOf(ctx).test(r) <==> v.bits != 0) && MeaningOf(ctx).drop(r) == InMemory(mem)
            case DividesByZero => r == DivisionByZero
            case IllTyped => r == Stuck
  {
    hide ContextOk, CellOk, Fetch;
  }

  // ----- the whole program -----

  /** The constants of the table go through the object file into the loaded memory. */
  ghost predicate Installed(table: seq<Tokens.Text>, decode: L.Decoder, ctx: Context, file: O.MoState, aligned: bool, layout: Layout,
                            start: Word, files: map<ModuleId, LO.ModuleFile>, mem: Memory)
  {
    && ctx.layout == layout.(bases := LO.Place(start, [ctx.m], files).bases)
    && OR.MoOk(file) && OR.Readable(file.symbols) && file.constants == L.BytesOf(decode, table) && L.Described(ctx.env, table, decode)
    && var r := O.ReadMo(O.MoBytes(file), aligned);
       r.Some? && ROD.SizesOk(r.value.constants) ==>
         && U.LaidOut(r.value.constants, layout) && U.Loaded(r.value.constants, mem)
         && ctx.space == U.LoadedSpace(ROD.TotalSize(r.value.constants))
  }

  /** Lowering and code generation accept the program. */
  ghost predicate Compiles(ctx: Context, expr: ExpressionCode, nodes: seq<Node>, next: nat) {
    var r := LowerAll(expr, nodes, next, NoCycle);
    r.Some? && StateAt(ctx.env, r.value.code, |r.value.code|).Some?
  }

  /** The module's commands are those made of the program; its labels and its operations can be numbered by words. */
  ghost predicate ModuleOf(ctx: Context, expr: ExpressionCode, nodes: seq<Node>, next: nat, files: map<ModuleId, LO.ModuleFile>) {
    && ctx.m in files
    && var r := LowerAll(expr, nodes, next, NoCycle);
       r.Some? ==>
         && r.value.next <= TWO64 && 24 * |r.value.code| < TWO64
         && (StateAt(ctx.env, r.value.code, |r.value.code|).Some? ==> files[ctx.m].commands == Commands(ctx, r.value.code))
  }

  /**
   * Started, the linked program halts with a memory exactly when the structured program finishes with it, and faults exactly when it divides by
   * zero. With every group settled, only the first branch whose condition holds runs.
   */
  ghost predicate RunsAsMeant(l: Sim.Link, ctx: Context, expr: ExpressionCode, nodes: seq<Node>, mem: Memory) {
    && SpaceOk(l.space) && V.StateOk(l.space, U.MachineStart(l.space, mem))
    && (forall mem' :: MachineEnds(l, U.MachineStart(l.space, mem), mem')
          <==> Finishes(MeaningOf(ctx), expr, nodes, InMemory(mem), InMemory(mem')))
    && (forall e :: MachineFaults(l, U.MachineStart(l.space, mem), e)
          <==> e == ZeroDivision && Finishes(MeaningOf(ctx), expr, nodes, InMemory(mem), DivisionByZero))
    && (AllSettled(expr, nodes) ==>
          forall r :: Finishes(MeaningOf(ctx), expr, nodes, InMemory(mem), r)
            <==> FinishesAsMeant(MeaningOf(ctx), expr, nodes, InMemory(mem), r))
  }

  /**
   * A structured program in tokens, its literals interned as they are met, is lowered, translated, linked against the constants read back
   * from the object file, loaded and started: the machine ends, faults or goes on for ever as the program does, statement by statement.
   */
  lemma SourceProgramRuns(names: T.Names, table: seq<Tokens.Text>, decode: L.Decoder, file: O.MoState, aligned: bool,
                          ctx: Context, layout: Layout, start: Word, files: map<ModuleId, LO.ModuleFile>,
                          nodes: seq<Node>, next: nat, mem: Memory)
    returns (l: Sim.Link)
    requires AllHaveBlocks(nodes) && AllScoped(nodes) && AllTidy(SourceCode(names, table), nodes)
    requires ContextOk(ctx) && Installed(table, decode, ctx, file, aligned, layout, start, files, mem)
    requires Compiles(ctx, SourceCode(names, table), nodes, next) && ModuleOf(ctx, SourceCode(names, table), nodes, next, files)
    ensures L.Carries(ctx, table, decode) && LO.LinkedCommands(layout, start, [ctx.m], files) == Some(l.cs) && l.space == ctx.space
    ensures RunsAsMeant(l, ctx, SourceCode(names, table), nodes, mem)
  {
    hide AllSettled, FinishesAsMeant;
    hide LowerAll, AllHaveBlocks, AllScoped, AllTidy, StateAt, LO.LinkedCommands, Finishes, LS.Emit, ContextOk, U.Loaded, LO.Place, OR.MoOk,
         O.ReadMo, O.MoBytes, L.Carries, L.Described, SourceCode, MachineEnds, MachineFaults, Commands;
    FileReads(file, aligned);
    var constants := O.ReadMo(O.MoBytes(file), aligned).value.constants;
    LaidOutPlaced(constants, layout, ctx.layout);
    L.TextsAreLoaded(ctx, table, decode, file, aligned, mem);
    if LO.LinkedCommands(layout, start, [ctx.m], files).Some? {
      CodeSize.LinkedSize(ctx, LowerAll(SourceCode(names, table), nodes, next, NoCycle).value.code, layout, start, files);
    }
    l := ProgramRunsFromStart(ctx, layout, constants, start, files, SourceCode(names, table), nodes, next, mem);
    if AllSettled(SourceCode(names, table), nodes) {
      forall r
        ensures Finishes(MeaningOf(ctx), SourceCode(names, table), nodes, InMemory(mem), r)
                <==> FinishesAsMeant(MeaningOf(ctx), SourceCode(names, table), nodes, InMemory(mem), r)
      {
        SettledFinishes(MeaningOf(ctx), SourceCode(names, table), nodes, InMemory(mem), r);
      }
    }
  }

  lemma LaidOutPlaced(constants: seq<ROD.ConstantData>, layout: Layout, final: Layout)
    requires U.LaidOut(constants, layout) && final == layout.(bases := final.bases)
    ensures U.LaidOut(constants, final)
  {
  }

  lemma FileReads(file: O.MoState, aligned: bool)
    requires OR.MoOk(file) && OR.Readable(file.symbols)
    ensures O.ReadMo(O.MoBytes(file), aligned).Some? && ROD.SizesOk(O.ReadMo(O.MoBytes(file), aligned).value.constants)
  {
    OR.MoRoundTrip(file, aligned);
    L.TableFits(file);
    L.KeptSizes(file.constants, aligned);
  }
}
