/** How many registers a whole program of trees needs, and that code generation accepts it exactly when there are as many. */
module ProgramPressure {
  import opened Words
  import opened ByteCode
  import opened Pseudo
  import opened Syntax
  import opened LoweringSpec
  import opened CodegenSpec
  import opened RegisterBalance
  import opened FlatCodegen
  import opened StackEvaluator
  import opened SourceProgram
  import opened SourceTrees
  import opened TreePrograms
  import A = AssignmentPressure
  import C = CompiledCode
  import E = Expressions
  import L = Literals
  import P = PrintedTrees
  import RP = RegisterPressure
  import RT = RawTokens
  import S = SourceExpressions
  import SH = StackHeight
  import Tokens

  // ----- registers taken after each part of a program; none when there are too few -----

  function ConditionRegisters(w: World, e: P.Tree, taken: nat): Option<nat>
    requires ConditionIn(w, e)
  {
    var x := S.Denoted(w.names, e, w.table).expr;
    if RP.WellTyped(w.ctx.env, x) && RP.Readable(w.ctx.env, x) && taken + RP.Max(RP.Need(x), 1) <= w.ctx.env.general then Some(taken + 1)
    else None
  }

  function AssignmentRegisters(w: World, e: P.Tree, taken: nat): Option<nat>
    requires AssignmentIn(w, e)
  {
    var a := S.DenotedAssignment(w.names, e, w.table).a;
    if A.AssignmentTyped(w.ctx.env, a) && taken + A.AssignmentNeed(a) <= w.ctx.env.general then Some(taken + C.Nested(a)) else None
  }

  function StatementRegisters(w: World, st: Statement, taken: nat): Option<nat>
    requires StatementOk(w, st)
    decreases st, 0
  {
    match st
    case Assigns(e) => AssignmentRegisters(w, e, taken)
    case Leave(_) => Some(taken)
    case Brace(_) => Some(taken)
    case Choice(cases) => CasesRegisters(w, cases, taken)
    case While(condition, body) =>
      var inside :- ConditionRegisters(w, condition, taken);
      AllRegisters(w, body, inside)
    case LineWhile(condition, line, after) =>
      var inside :- ConditionRegisters(w, condition, taken);
      var behind :- AllRegisters(w, line, inside);
      AllRegisters(w, after, behind)
  }

  function AllRegisters(w: World, p: seq<Statement>, taken: nat): Option<nat>
    requires AllOk(w, p)
    decreases p, 0
  {
    if p == [] then Some(taken)
    else
      var next :- StatementRegisters(w, p[0], taken);
      AllRegisters(w, p[1..], next)
  }

  function CasesRegisters(w: World, cases: seq<Case>, taken: nat): Option<nat>
    requires CasesOk(w, cases)
    decreases cases, 0
  {
    if cases == [] then Some(taken)
    else
      var inside :- if cases[0].When? then ConditionRegisters(w, cases[0].condition, taken) else Some(taken);
      var next :- AllRegisters(w, cases[0].body, inside);
      CasesRegisters(w, cases[1..], next)
  }

  // ----- parts of the code -----

  /** Between parts of a program no operand is waiting. */
  ghost predicate Idle(env: Env, g: GState) {
    Agrees(env, g) && g.stack == []
  }

  /** Translation gets through exactly when the registers suffice, and then so many are taken. */
  ghost predicate Counted(env: Env, r: Option<GState>, taken: Option<nat>) {
    (r.Some? <==> taken.Some?) && (r.Some? ==> Idle(env, r.value) && |r.value.used| == taken.value)
  }

  function Emitted(env: Env, g: GState, code: seq<POp>): Option<GState> {
    if env.general < TWO64 then EmitAll(env, g, PseudoCode(code)) else None
  }

  lemma PseudoAppend(a: seq<POp>, b: seq<POp>)
    ensures PseudoCode(a + b) == PseudoCode(a) + PseudoCode(b)
  {
  }

  lemma NothingEmitted(env: Env, g: GState)
    requires Idle(env, g)
    ensures Counted(env, Emitted(env, g, []), Some(|g.used|))
  {
    assert PseudoCode([]) == [];
  }

  /** One part behind another. */
  lemma Behind(env: Env, g: GState, a: seq<POp>, b: seq<POp>, first: Option<nat>, second: Option<nat>)
    requires Idle(env, g) && Counted(env, Emitted(env, g, a), first)
    requires first.Some? ==> Counted(env, Emitted(env, Emitted(env, g, a).value, b), second)
    ensures Counted(env, Emitted(env, g, a + b), if first.Some? then second else None)
    ensures Emitted(env, g, a + b) == if Emitted(env, g, a).Some? then Emitted(env, Emitted(env, g, a).value, b) else None
  {
    hide EmitAll, Idle, Agrees, PseudoCode;
    PseudoAppend(a, b);
    if env.general < TWO64 {
      EmitAllAppend(env, g, PseudoCode(a), PseudoCode(b));
    }
  }

  lemma OneEmitted(env: Env, g: GState, op: POp)
    requires env.general < TWO64
    ensures Emitted(env, g, [op]) == EmitOp(env, g, AsPseudo(op))
  {
    hide EmitOp, EmitAll, AsPseudo;
    assert PseudoCode([op]) == [AsPseudo(op)];
    EmitLast(env, g, AsPseudo(op));
  }

  /** Labels and jumps take no register. */
  lemma JumpCounted(env: Env, g: GState, op: POp)
    requires Idle(env, g) && (op.Mark? || op.Goto? || op.Unresolved?)
    ensures Counted(env, Emitted(env, g, [op]), Some(|g.used|))
  {
    hide EmitAll;
    OneEmitted(env, g, op);
    EmitAgrees(env, g, AsPseudo(op));
  }

  lemma PlainEmitted(env: Env, g: GState, ops: seq<PseudoOp>)
    requires env.general < TWO64
    ensures Emitted(env, g, PlainCode(ops)) == EmitAll(env, g, ops)
  {
    hide EmitAll;
    assert PseudoCode(PlainCode(ops)) == ops;
  }

  lemma BraceCounted(env: Env, g: GState, opens: bool)
    requires Idle(env, g)
    ensures Counted(env, Emitted(env, g, [Plain(Op(if opens then PushFrame else PopFrame))]), Some(|g.used|))
  {
    hide EmitAll;
    var op := Op(if opens then PushFrame else PopFrame);
    OneEmitted(env, g, Plain(op));
    EmitAgrees(env, g, op);
  }

  /** The conditional jump loads the condition's value when it is not loaded yet, and keeps its register. */
  lemma LeaveCounted(env: Env, g: GState, g1: GState, x: E.Expr, id: nat)
    requires RP.IntegerEnv(env) && Idle(env, g) && RP.OneAbove(env, g, g1, x)
    ensures Counted(env, Emitted(env, g1, [GotoUnless(id)]),
                    if RP.Readable(env, x) && |g.used| + 1 <= env.general then Some(|g.used| + 1) else None)
  {
    hide EmitAll, LoadOperand, RP.Readable, RP.FrameOf, Owned, Distinct;
    OneEmitted(env, g1, GotoUnless(id));
    assert g1.stack[|g1.stack| - 1] == g1.stack[|g.stack|];
    RP.LoadCount(env, g1, x);
    if LoadOperand(env, g1).Some? {
      EmitAgrees(env, g1, AsPseudo(GotoUnless(id)));
    }
  }

  lemma ConditionCounted(w: World, e: P.Tree, id: nat, g: GState)
    requires ConditionIn(w, e) && RP.IntegerEnv(w.ctx.env) && Idle(w.ctx.env, g)
    ensures Counted(w.ctx.env, Emitted(w.ctx.env, g, PlainCode(Code(w)(RT.SourceOf(e))) + [GotoUnless(id)]),
                    ConditionRegisters(w, e, |g.used|))
  {
    hide EmitAll, S.Translation, S.Denoted, E.Compile, RP.WellTyped, RP.Readable, RP.Need, RP.OneAbove, RP.IntegerEnv, L.Operates, P.TreeOk,
         Agrees, PseudoCode;
    var env, ops := w.ctx.env, Code(w)(RT.SourceOf(e));
    S.ExpressionTranslated(w.names, e, w.table);
    var x := S.Denoted(w.names, e, w.table).expr;
    RP.PressureIsExact(env, g, x);
    SmallGeneral(env);
    PlainEmitted(env, g, ops);
    PseudoAppend(PlainCode(ops), [GotoUnless(id)]);
    EmitAllAppend(env, g, PseudoCode(PlainCode(ops)), PseudoCode([GotoUnless(id)]));
    if EmitAll(env, g, ops).Some? {
      LeaveCounted(env, g, EmitAll(env, g, ops).value, x, id);
    }
    LeafNeeds(x);
  }

  lemma SmallGeneral(env: Env)
    requires RP.IntegerEnv(env)
    ensures env.general < TWO64
  {
  }

  lemma LeafNeeds(x: E.Expr)
    ensures RP.Max(RP.Need(x), 1) >= 1 && RP.Max(RP.Need(x), 1) >= RP.Need(x)
    ensures RP.Max(RP.Need(x), 1) == RP.Need(x) || RP.Max(RP.Need(x), 1) == 1
  {
  }

  lemma AssignmentCounted(w: World, e: P.Tree, g: GState)
    requires WorldOk(w) && AssignmentIn(w, e) && RP.IntegerEnv(w.ctx.env) && Idle(w.ctx.env, g)
    ensures Counted(w.ctx.env, Emitted(w.ctx.env, g, PlainCode(Code(w)(RT.SourceOf(e)))), AssignmentRegisters(w, e, |g.used|))
  {
    hide EmitAll, S.Translation, S.DenotedAssignment, E.CompileAssignment, A.AssignmentTyped, A.AssignmentNeed, RP.IntegerEnv, L.Stores, P.TreeOk,
         Agrees, PseudoCode, SH.ShapeOk, E.AssignmentOk, ContextOk, L.Carries, L.TreeEffect, E.RunAssignment, L.AddressIn;
    var env, a := w.ctx.env, S.DenotedAssignment(w.names, e, w.table).a;
    S.AssignmentTranslated(w.names, e, w.table);
    WorldFits(w);
    L.DenotedEffect(w.names, e, w.table, w.ctx, seq(w.ctx.space.end, i => 0), w.table, w.decode);
    C.OkHasShape(w.ctx, a);
    A.AssignmentPressureIsExact(env, g, a, Assign);
    SmallGeneral(env);
    PlainEmitted(env, g, E.CompileAssignment(a, Assign));
  }

  // ----- the whole program -----

  lemma LineCounted(w: World, st: Statement, targets: Targets, g: GState)
    requires WorldOk(w) && StatementOk(w, st) && (st.Assigns? || st.Leave?) && RP.IntegerEnv(w.ctx.env) && Idle(w.ctx.env, g)
    ensures Counted(w.ctx.env, Emitted(w.ctx.env, g, ExpressionOps(Code(w), Print(st).tokens, targets)), StatementRegisters(w, st, |g.used|))
  {
    hide SourceCode, WorldOk, AssignmentIn, RP.IntegerEnv, Idle, Counted, Emitted, AssignmentRegisters;
    match st {
      case Assigns(e) =>
        AssignmentIsLong(w, e);
        AssignmentCounted(w, e, g);
      case Leave(isBreak) =>
        LeaveDoes(w, isBreak, Divided);
        JumpCounted(w.ctx.env, g, ExpressionOps(Code(w), Print(st).tokens, targets)[0]);
    }
  }

  /** A statement's code is accepted exactly when its registers are there. */
  lemma {:induction false} StatementCounted(w: World, st: Statement, next: nat, targets: Targets, g: GState)
    requires WorldOk(w) && StatementOk(w, st) && RP.IntegerEnv(w.ctx.env) && Idle(w.ctx.env, g)
    requires LowerNode(Code(w), Print(st), next, targets).Some?
    ensures Counted(w.ctx.env, Emitted(w.ctx.env, g, LowerNode(Code(w), Print(st), next, targets).value.code), StatementRegisters(w, st, |g.used|))
    decreases st, 1
  {
    hide SourceCode, WorldOk, AssignmentIn, ConditionIn, RP.IntegerEnv, Idle, Counted, Emitted, LowerIf, LowerWhile, ExpressionOps, AllOk, CasesOk,
         AllRegisters, CasesRegisters, ConditionRegisters, AssignmentRegisters, PrintAll, PrintCases;
    match st {
      case Assigns(_) => LineCounted(w, st, targets, g);
      case Leave(_) => LineCounted(w, st, targets, g);
      case Brace(opens) => BraceCounted(w.ctx.env, g, opens);
      case Choice(cases) => ChoiceCounted(w, cases, next, targets, g);
      case While(condition, body) => WhileCounted(w, condition, body, next, targets, g);
      case LineWhile(condition, line, after) => LineWhileCounted(w, condition, line, after, next, targets, g);
    }
  }

  lemma {:induction false} AllCounted(w: World, p: seq<Statement>, next: nat, targets: Targets, g: GState)
    requires WorldOk(w) && AllOk(w, p) && RP.IntegerEnv(w.ctx.env) && Idle(w.ctx.env, g)
    requires LowerAll(Code(w), PrintAll(p), next, targets).Some?
    ensures Counted(w.ctx.env, Emitted(w.ctx.env, g, LowerAll(Code(w), PrintAll(p), next, targets).value.code), AllRegisters(w, p, |g.used|))
    decreases p, 0
  {
    hide SourceCode, WorldOk, StatementOk, RP.IntegerEnv, Idle, Emitted, LowerNode, Print, PrintAll, StatementRegisters;
    var env := w.ctx.env;
    if p == [] {
      NothingPrinted();
      NothingEmitted(env, g);
    } else {
      AllPrinted(p);
      var first := LowerNode(Code(w), Print(p[0]), next, targets).value;
      var rest := LowerAll(Code(w), PrintAll(p[1..]), first.next, targets).value;
      StatementCounted(w, p[0], next, targets, g);
      var taken := StatementRegisters(w, p[0], |g.used|);
      if taken.Some? {
        AllCounted(w, p[1..], first.next, targets, Emitted(env, g, first.code).value);
      }
      Behind(env, g, first.code, rest.code, taken, if taken.Some? then AllRegisters(w, p[1..], taken.value) else None);
    }
  }

  /** The condition of a case with its jump, or nothing for an else. */
  function Opening(w: World, c: Case, id: nat): seq<POp> {
    if c.When? then PlainCode(Code(w)(RT.SourceOf(c.condition))) + [GotoUnless(id)] else []
  }

  function Closing(c: Case, id: nat, end: Option<nat>): seq<POp> {
    if c.When? then (if end.Some? then [Goto(end.value)] else []) + [Mark(id)] else []
  }

  lemma ClosingCounted(env: Env, g: GState, c: Case, id: nat, end: Option<nat>)
    requires Idle(env, g)
    ensures Counted(env, Emitted(env, g, Closing(c, id, end)), Some(|g.used|))
  {
    hide Emitted, Idle;
    NothingEmitted(env, g);
    JumpCounted(env, g, Mark(id));
    if end.Some? {
      JumpCounted(env, g, Goto(end.value));
      var g1 := Emitted(env, g, [Goto(end.value)]).value;
      JumpCounted(env, g1, Mark(id));
      Behind(env, g, [Goto(end.value)], [Mark(id)], Some(|g.used|), Some(|g.used|));
    } else {
      var none: seq<POp> := [];
      assert none + [Mark(id)] == [Mark(id)];
    }
  }

  lemma CaseShape(w: World, cases: seq<Case>, first: bool, next: nat, targets: Targets, end: Option<nat>)
    requires CasesOk(w, cases) && cases != []
    requires LowerClauses(Code(w), PrintCases(cases, first), next, targets, end).Some?
    ensures var c, start := cases[0], if cases[0].When? then next + 1 else next;
            var branch := LowerAll(Code(w), PrintAll(c.body), start, targets);
            && branch.Some? && LowerClauses(Code(w), PrintCases(cases[1..], false), branch.value.next, targets, end).Some?
            && LowerClauses(Code(w), PrintCases(cases, first), next, targets, end).value.code
               == Opening(w, c, next) + branch.value.code + Closing(c, next, end)
                  + LowerClauses(Code(w), PrintCases(cases[1..], false), branch.value.next, targets, end).value.code
  {
    hide SourceCode, ConditionIn, LowerAll, LineOf, PrintAll, PrintCases, ClauseOk, SplitHeader, AllOk, LowerBranch, CaseOk, IsLine, CaseLine;
    CasesPrinted(cases, first);
    FirstCaseOk(w, cases);
    var c := cases[0];
    CasePrinted(w, c, first);
    BranchLowers(w, c, first, if c.When? then next + 1 else next, targets);
    if c.When? {
      HeaderSplits(w, if first then "if" else "elif", c.condition, CaseLine(c));
      var branch := LowerAll(Code(w), PrintAll(c.body), next + 1, targets).value;
      var rest := LowerClauses(Code(w), PrintCases(cases[1..], false), branch.next, targets, end).value;
      FourParts(Opening(w, c, next) + branch.code, if end.Some? then [Goto(end.value)] else [], [Mark(next)], rest.code);
    } else {
      var none: seq<POp> := [];
      var branch := LowerAll(Code(w), PrintAll(c.body), next, targets).value;
      assert none + branch.code + none == branch.code;
    }
  }

  lemma FourParts<X>(a: seq<X>, b: seq<X>, c: seq<X>, d: seq<X>)
    ensures a + b + c + d == a + (b + c) + d
  {
  }

  lemma OpeningCounted(w: World, c: Case, id: nat, g: GState)
    requires (c.When? ==> ConditionIn(w, c.condition)) && RP.IntegerEnv(w.ctx.env) && Idle(w.ctx.env, g)
    ensures Counted(w.ctx.env, Emitted(w.ctx.env, g, Opening(w, c, id)),
                    if c.When? then ConditionRegisters(w, c.condition, |g.used|) else Some(|g.used|))
  {
    hide SourceCode, ConditionIn, RP.IntegerEnv, Idle, Emitted, ConditionRegisters, Counted;
    if c.When? {
      ConditionCounted(w, c.condition, id, g);
    } else {
      NothingEmitted(w.ctx.env, g);
    }
  }

  lemma {:induction false} CasesCounted(w: World, cases: seq<Case>, first: bool, next: nat, targets: Targets, end: Option<nat>, g: GState)
    requires WorldOk(w) && CasesOk(w, cases) && RP.IntegerEnv(w.ctx.env) && Idle(w.ctx.env, g)
    requires LowerClauses(Code(w), PrintCases(cases, first), next, targets, end).Some?
    ensures Counted(w.ctx.env, Emitted(w.ctx.env, g, LowerClauses(Code(w), PrintCases(cases, first), next, targets, end).value.code),
                    CasesRegisters(w, cases, |g.used|))
    decreases cases, 0
  {
    hide SourceCode, WorldOk, ConditionIn, RP.IntegerEnv, Idle, Emitted, LowerAll, LowerClauses, PrintAll, PrintCases, ConditionRegisters,
         AllRegisters, Opening, Closing, AllOk;
    var env := w.ctx.env;
    if cases == [] {
      NothingPrinted();
      NoClauses(w, next, targets, end);
      NothingEmitted(env, g);
    } else {
      CaseShape(w, cases, first, next, targets, end);
      var c, start := cases[0], if cases[0].When? then next + 1 else next;
      var branch := LowerAll(Code(w), PrintAll(c.body), start, targets).value;
      var rest := LowerClauses(Code(w), PrintCases(cases[1..], false), branch.next, targets, end).value;
      var asked := if c.When? then ConditionRegisters(w, c.condition, |g.used|) else Some(|g.used|);
      OpeningCounted(w, c, next, g);
      var x := Opening(w, c, next);
      var inside := if asked.Some? then AllRegisters(w, c.body, asked.value) else None;
      if asked.Some? {
        AllCounted(w, c.body, start, targets, Emitted(env, g, x).value);
      }
      Behind(env, g, x, branch.code, asked, inside);
      if inside.Some? {
        ClosingCounted(env, Emitted(env, g, x + branch.code).value, c, next, end);
      }
      var y := x + branch.code + Closing(c, next, end);
      Behind(env, g, x + branch.code, Closing(c, next, end), inside, inside);
      if inside.Some? {
        CasesCounted(w, cases[1..], false, branch.next, targets, end, Emitted(env, g, y).value);
      }
      Behind(env, g, y, rest.code, inside, if inside.Some? then CasesRegisters(w, cases[1..], inside.value) else None);
    }
  }

  lemma NoClauses(w: World, next: nat, targets: Targets, end: Option<nat>)
    ensures LowerClauses(Code(w), [], next, targets, end) == Some(Lowered([], next))
  {
  }

  lemma {:induction false} ChoiceCounted(w: World, cases: seq<Case>, next: nat, targets: Targets, g: GState)
    requires WorldOk(w) && CasesOk(w, cases) && cases != [] && RP.IntegerEnv(w.ctx.env) && Idle(w.ctx.env, g)
    requires LowerIf(Code(w), PrintCases(cases, true), next, targets).Some?
    ensures Counted(w.ctx.env, Emitted(w.ctx.env, g, LowerIf(Code(w), PrintCases(cases, true), next, targets).value.code),
                    CasesRegisters(w, cases, |g.used|))
    decreases cases, 1
  {
    hide SourceCode, WorldOk, RP.IntegerEnv, Idle, Emitted, LowerAll, LowerClauses, PrintCases, CasesRegisters, CasesOk, GroupOk, LineOf;
    var env, several := w.ctx.env, |cases| > 1;
    LastPrinted(w, cases, true);
    var start, end := if several then next + 1 else next, if several then Some(next) else None;
    var body := LowerClauses(Code(w), PrintCases(cases, true), start, targets, end).value;
    CasesCounted(w, cases, true, start, targets, end, g);
    NothingLowers(Code(w), body.next, targets);
    var taken := CasesRegisters(w, cases, |g.used|);
    var none: seq<POp> := [];
    assert body.code + none == body.code && body.code + [Mark(next)] + none == body.code + [Mark(next)];
    if several {
      if taken.Some? {
        JumpCounted(env, Emitted(env, g, body.code).value, Mark(next));
      }
      Behind(env, g, body.code, [Mark(next)], taken, taken);
    }
  }

  /** The condition of a cycle, what it repeats, and the jumps around them. */
  function CycleCode(w: World, condition: P.Tree, next: nat, inner: seq<POp>): seq<POp> {
    [Mark(next)] + (PlainCode(Code(w)(RT.SourceOf(condition))) + [GotoUnless(next + 1)]) + inner + ([Goto(next)] + [Mark(next + 1)])
  }

  lemma {:induction false} CycleCounted(w: World, condition: P.Tree, body: seq<Statement>, next: nat, g: GState)
    requires WorldOk(w) && ConditionIn(w, condition) && AllOk(w, body) && RP.IntegerEnv(w.ctx.env) && Idle(w.ctx.env, g)
    requires LowerAll(Code(w), PrintAll(body), next + 2, Cycle(next + 1, next)).Some?
    ensures Counted(w.ctx.env,
                    Emitted(w.ctx.env, g, CycleCode(w, condition, next, LowerAll(Code(w), PrintAll(body), next + 2, Cycle(next + 1, next)).value.code)),
                    match ConditionRegisters(w, condition, |g.used|) case Some(inside) => AllRegisters(w, body, inside) case None => None)
    decreases body, 1
  {
    hide SourceCode, WorldOk, ConditionIn, RP.IntegerEnv, Idle, Emitted, LowerAll, PrintAll, ConditionRegisters, AllRegisters, AllOk;
    var env, own := w.ctx.env, Cycle(next + 1, next);
    var inner := LowerAll(Code(w), PrintAll(body), next + 2, own).value;
    var head, tail := PlainCode(Code(w)(RT.SourceOf(condition))) + [GotoUnless(next + 1)], [Goto(next)] + [Mark(next + 1)];
    var taken := Some(|g.used|);
    JumpCounted(env, g, Mark(next));
    var g1 := Emitted(env, g, [Mark(next)]).value;
    ConditionCounted(w, condition, next + 1, g1);
    var inside := ConditionRegisters(w, condition, |g.used|);
    Behind(env, g, [Mark(next)], head, taken, inside);
    var x := [Mark(next)] + head;
    var last := if inside.Some? then AllRegisters(w, body, inside.value) else None;
    if inside.Some? {
      AllCounted(w, body, next + 2, own, Emitted(env, g, x).value);
    }
    Behind(env, g, x, inner.code, inside, last);
    if last.Some? {
      ClosingCounted(env, Emitted(env, g, x + inner.code).value, When(condition, false, body), next + 1, Some(next));
    }
    Behind(env, g, x + inner.code, tail, last, last);
  }

  lemma {:induction false} WhileCounted(w: World, condition: P.Tree, body: seq<Statement>, next: nat, targets: Targets, g: GState)
    requires WorldOk(w) && ConditionIn(w, condition) && AllOk(w, body) && RP.IntegerEnv(w.ctx.env) && Idle(w.ctx.env, g)
    requires LowerWhile(Code(w), SourceTrees.Header("while", condition, []), PrintAll(body), next, targets).Some?
    ensures Counted(w.ctx.env,
                    Emitted(w.ctx.env, g, LowerWhile(Code(w), SourceTrees.Header("while", condition, []), PrintAll(body), next, targets).value.code),
                    match ConditionRegisters(w, condition, |g.used|) case Some(inside) => AllRegisters(w, body, inside) case None => None)
    decreases body, 2
  {
    hide SourceCode, WorldOk, ConditionIn, RP.IntegerEnv, Idle, Emitted, LowerAll, PrintAll, ConditionRegisters, AllRegisters, AllOk, SplitHeader,
         SourceTrees.Header, Counted;
    HeaderSplits(w, "while", condition, []);
    CycleCounted(w, condition, body, next, g);
    CycleShape(next, PlainCode(Code(w)(RT.SourceOf(condition))), LowerAll(Code(w), PrintAll(body), next + 2, Cycle(next + 1, next)).value.code, []);
  }

  lemma {:induction false} LineWhileCounted(w: World, condition: P.Tree, line: seq<Statement>, after: seq<Statement>, next: nat, targets: Targets,
                                            g: GState)
    requires WorldOk(w) && StatementOk(w, LineWhile(condition, line, after)) && RP.IntegerEnv(w.ctx.env) && Idle(w.ctx.env, g)
    requires LowerWhile(Code(w), SourceTrees.Header("while", condition, LineTokens(line)), PrintAll(after), next, targets).Some?
    ensures Counted(w.ctx.env,
                    Emitted(w.ctx.env, g,
                            LowerWhile(Code(w), SourceTrees.Header("while", condition, LineTokens(line)), PrintAll(after), next, targets).value.code),
                    StatementRegisters(w, LineWhile(condition, line, after), |g.used|))
    decreases LineWhile(condition, line, after), 0
  {
    hide SourceCode, WorldOk, ConditionIn, RP.IntegerEnv, Idle, Emitted, LowerAll, PrintAll, ConditionRegisters, AllRegisters, AllOk, SplitHeader,
         SourceTrees.Header, IsLine, LineTokens, ExpressionOps;
    var env, own := w.ctx.env, Cycle(next + 1, next);
    HeaderSplits(w, "while", condition, LineTokens(line));
    LinePrinted(w, line);
    AloneLowers(Code(w), LineTokens(line), next + 2, own);
    CycleCounted(w, condition, line, next, g);
    var inner := LowerAll(Code(w), PrintAll(line), next + 2, own).value;
    var behind := LowerAll(Code(w), PrintAll(after), next + 2, targets).value;
    CycleShape(next, PlainCode(Code(w)(RT.SourceOf(condition))), inner.code, behind.code);
    var cycle := CycleCode(w, condition, next, inner.code);
    var inside := ConditionRegisters(w, condition, |g.used|);
    var taken := if inside.Some? then AllRegisters(w, line, inside.value) else None;
    if taken.Some? {
      AllCounted(w, after, next + 2, targets, Emitted(env, g, cycle).value);
    }
    Behind(env, g, cycle, behind.code, taken, if taken.Some? then AllRegisters(w, after, taken.value) else None);
  }

  lemma CycleShape(next: nat, condition: seq<POp>, inner: seq<POp>, after: seq<POp>)
    ensures [Mark(next)] + condition + [GotoUnless(next + 1)] + inner + [Goto(next), Mark(next + 1)] + after
         == [Mark(next)] + (condition + [GotoUnless(next + 1)]) + inner + ([Goto(next)] + [Mark(next + 1)]) + after
    ensures after == [] ==>
              [Mark(next)] + condition + [GotoUnless(next + 1)] + inner + [Goto(next), Mark(next + 1)] + after
              == [Mark(next)] + (condition + [GotoUnless(next + 1)]) + inner + ([Goto(next)] + [Mark(next + 1)])
  {
  }

  /**
   * Code generation accepts a whole program exactly when its expressions are well typed and at every point as many general registers are free
   * as the statement or condition there needs: those before it have kept one for each conditional jump and each nested assignment.
   */
  lemma ProgramTranslates(w: World, p: seq<Statement>, next: nat)
    requires WorldOk(w) && AllOk(w, p) && RP.IntegerEnv(w.ctx.env)
    ensures LowerAll(Code(w), PrintAll(p), next, NoCycle).Some?
    ensures var code := LowerAll(Code(w), PrintAll(p), next, NoCycle).value.code;
            StateAt(w.ctx.env, code, |code|).Some? <==> AllRegisters(w, p, 0).Some?
  {
    hide SourceCode, WorldOk, AllOk, LowerAll, PrintAll, AllRegisters, EmitAll;
    AllLower(w, p, next, NoCycle);
    var code := LowerAll(Code(w), PrintAll(p), next, NoCycle).value.code;
    assert code[..|code|] == code;
    AllCounted(w, p, next, NoCycle, FRESH);
  }
}
