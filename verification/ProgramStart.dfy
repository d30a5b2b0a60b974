/** The code of every accepted program links, and the machine, started on it, does what the program means. */
module ProgramStart {
  import opened Words
  import opened ByteCode
  import opened Machine
  import opened Pseudo
  import opened Syntax
  import opened Tokens
  import opened LoweringSpec
  import opened BreakScoping
  import opened StructuredMeaning
  import opened LoweringCorrect
  import opened LevelCode
  import opened FlatCodegen
  import opened CompiledProgram
  import opened ProgramToMachine
  import G = CodegenSpec
  import CC = CompiledCode
  import CG = CodegenCorrect
  import CS = CodegenStatic
  import SE = StackEvaluator
  import S = Simulation
  import L = LinkedRun
  import LM = LinkedModules
  import LO = LinkOrder
  import LS = LinkSpec
  import RB = RegisterBalance
  import ROD = ReadOnlyData
  import U = Startup
  import B = ByteMachine
  import V = VM

  // ----- every jump has its label -----

  function Jumps(code: seq<POp>): set<nat> {
    (set k | 0 <= k < |code| && code[k].Goto? :: code[k].id) + (set k | 0 <= k < |code| && code[k].GotoUnless? :: code[k].id)
  }

  function TargetIds(targets: Targets): set<nat> {
    if targets.Cycle? then {targets.end, targets.check} else {}
  }

  function EndIds(end: Option<nat>): set<nat> {
    if end.Some? then {end.value} else {}
  }

  lemma JumpsAppend(a: seq<POp>, b: seq<POp>)
    ensures Jumps(a + b) == Jumps(a) + Jumps(b)
  {
    var x := a + b;
    assert forall k :: 0 <= k < |a| ==> x[k] == a[k];
    assert forall k :: 0 <= k < |b| ==> x[|a| + k] == b[k];
    forall id | id in Jumps(a) + Jumps(b)
      ensures id in Jumps(x)
    {
      if id in Jumps(a) {
        var k :| 0 <= k < |a| && (a[k] == Goto(id) || a[k] == GotoUnless(id));
        assert x[k] == a[k];
      } else {
        var k :| 0 <= k < |b| && (b[k] == Goto(id) || b[k] == GotoUnless(id));
        assert x[|a| + k] == b[k];
      }
    }
  }

  lemma JumpsOne(op: POp)
    ensures Jumps([op]) == (if op.Goto? || op.GotoUnless? then {op.id} else {})
  {
    assert [op][0] == op;
  }

  lemma PlainHasNoJump(ops: seq<PseudoOp>)
    ensures Jumps(PlainCode(ops)) == {}
  {
  }

  lemma ExpressionJumps(expr: ExpressionCode, tokens: seq<Token>, targets: Targets)
    ensures Jumps(ExpressionOps(expr, tokens, targets)) <= TargetIds(targets)
  {
    if IsBreak(tokens) || IsContinue(tokens) {
      JumpsOne(ExpressionOps(expr, tokens, targets)[0]);
    } else {
      PlainHasNoJump(expr(tokens));
    }
  }

  lemma {:induction false} NodeDeclared(expr: ExpressionCode, n: Node, next: nat, targets: Targets)
    requires LowerNode(expr, n, next, targets).Some?
    ensures var code := LowerNode(expr, n, next, targets).value.code; Jumps(code) <= Ids(code) + TargetIds(targets)
    decreases n, 0
  {
    hide LowerAll, LowerIf, LowerWhile;
    match n
    case Expression(tokens) => ExpressionJumps(expr, tokens, targets);
    case ScopeMark(_) =>
    case Block(children) => AllDeclared(expr, children, next, targets);
    case IfGroup(clauses) =>
      if clauses != [] {
        IfDeclared(expr, clauses, next, targets);
      }
    case WhileCycle(header, body) =>
      if body != [] {
        WhileDeclared(expr, header, body, next, targets);
      }
  }

  lemma {:induction false} AllDeclared(expr: ExpressionCode, nodes: seq<Node>, next: nat, targets: Targets)
    requires LowerAll(expr, nodes, next, targets).Some?
    ensures var code := LowerAll(expr, nodes, next, targets).value.code; Jumps(code) <= Ids(code) + TargetIds(targets)
    decreases nodes, 0
  {
    hide LowerNode, Jumps, Ids;
    if nodes == [] {
      NothingJumps();
    } else {
      var first := LowerNode(expr, nodes[0], next, targets).value;
      var rest := LowerAll(expr, nodes[1..], first.next, targets).value;
      NodeDeclared(expr, nodes[0], next, targets);
      AllDeclared(expr, nodes[1..], first.next, targets);
      IdsAppend(first.code, rest.code);
      JumpsAppend(first.code, rest.code);
    }
  }

  lemma NothingJumps()
    ensures Jumps([]) == {}
  {
  }

  lemma {:induction false} BranchDeclared(expr: ExpressionCode, c: Clause, next: nat, targets: Targets)
    requires LowerBranch(expr, c, next, targets).Some?
    ensures var code := LowerBranch(expr, c, next, targets).value.code; Jumps(code) <= Ids(code) + TargetIds(targets)
    decreases c, 0
  {
    hide LowerAll, Jumps, Ids;
    if LineOf(c) != [] {
      ExpressionJumps(expr, LineOf(c), targets);
    } else {
      AllDeclared(expr, c.body, next, targets);
    }
  }

  lemma ClauseDeclared(condition: seq<PseudoOp>, id: nat, branch: seq<POp>, end: Option<nat>, rest: seq<POp>, outer: set<nat>)
    requires Jumps(branch) <= Ids(branch) + outer && Jumps(rest) <= Ids(rest) + outer + EndIds(end)
    ensures var code := PlainCode(condition) + [GotoUnless(id)] + branch + (if end.Some? then [Goto(end.value)] else []) + [Mark(id)] + rest;
            Jumps(code) <= Ids(code) + outer + EndIds(end)
  {
    var leave := if end.Some? then [Goto(end.value)] else [];
    var x := PlainCode(condition) + [GotoUnless(id)];
    PlainHasNoJump(condition);
    JumpsOne(GotoUnless(id));
    JumpsOne(Mark(id));
    OneLabel(id);
    LeaveJumps(end);
    hide Jumps, Ids;
    JumpsAppend(PlainCode(condition), [GotoUnless(id)]);
    JumpsAppend(x, branch);
    JumpsAppend(x + branch, leave);
    JumpsAppend(x + branch + leave, [Mark(id)]);
    JumpsAppend(x + branch + leave + [Mark(id)], rest);
    IdsAppend(x, branch);
    IdsAppend(x + branch, leave);
    IdsAppend(x + branch + leave, [Mark(id)]);
    IdsAppend(x + branch + leave + [Mark(id)], rest);
  }

  lemma LeaveJumps(end: Option<nat>)
    ensures Jumps(if end.Some? then [Goto(end.value)] else []) == EndIds(end)
  {
    if end.Some? {
      JumpsOne(Goto(end.value));
    }
  }

  lemma {:induction false} ClausesDeclared(expr: ExpressionCode, clauses: seq<Clause>, next: nat, targets: Targets, end: Option<nat>)
    requires LowerClauses(expr, clauses, next, targets, end).Some?
    ensures var code := LowerClauses(expr, clauses, next, targets, end).value.code;
            Jumps(code) <= Ids(code) + TargetIds(targets) + EndIds(end)
    decreases clauses, 0
  {
    hide LowerBranch, Jumps, Ids, TargetIds, EndIds, ClauseOk;
    if clauses == [] {
      NothingJumps();
    } else {
      var c := clauses[0];
      ClauseShape(expr, clauses, next, targets, end);
      var start := if c.kind == Else then next else next + 1;
      var branch := LowerBranch(expr, c, start, targets).value;
      var rest := LowerClauses(expr, clauses[1..], branch.next, targets, end).value;
      BranchDeclared(expr, c, start, targets);
      ClausesDeclared(expr, clauses[1..], branch.next, targets, end);
      if c.kind == Else {
        IdsAppend(branch.code, rest.code);
        JumpsAppend(branch.code, rest.code);
      } else {
        ClauseDeclared(expr(SplitHeader(c.tokens).condition), next, branch.code, end, rest.code, TargetIds(targets));
      }
    }
  }

  lemma ClauseShape(expr: ExpressionCode, clauses: seq<Clause>, next: nat, targets: Targets, end: Option<nat>)
    requires clauses != [] && LowerClauses(expr, clauses, next, targets, end).Some?
    ensures clauses[0].kind != Else ==> clauses[0].tokens != []
  {
  }

  lemma {:induction false} IfDeclared(expr: ExpressionCode, clauses: seq<Clause>, next: nat, targets: Targets)
    requires clauses != [] && LowerIf(expr, clauses, next, targets).Some?
    ensures var code := LowerIf(expr, clauses, next, targets).value.code; Jumps(code) <= Ids(code) + TargetIds(targets)
    decreases clauses, 1
  {
    hide LowerClauses, LowerAll, Jumps, Ids, TargetIds, GroupOk;
    var several := |clauses| > 1;
    var start, end := if several then next + 1 else next, if several then Some(next) else None;
    var body, last := LowerClauses(expr, clauses, start, targets, end).value, clauses[|clauses| - 1];
    ClausesDeclared(expr, clauses, start, targets, end);
    NothingJumps();
    if LineOf(last) != [] {
      AllDeclared(expr, last.body, body.next, targets);
    }
    var after := if LineOf(last) == [] then [] else LowerAll(expr, last.body, body.next, targets).value.code;
    var mark := if several then [Mark(next)] else [];
    OneLabel(next);
    JumpsOne(Mark(next));
    JumpsAppend(body.code, mark);
    JumpsAppend(body.code + mark, after);
    IdsAppend(body.code, mark);
    IdsAppend(body.code + mark, after);
  }

  lemma CycleDeclared(check: nat, end: nat, condition: seq<PseudoOp>, inner: seq<POp>, after: seq<POp>, outer: set<nat>)
    requires Jumps(inner) <= Ids(inner) + {end, check} && Jumps(after) <= Ids(after) + outer
    ensures var code := [Mark(check)] + PlainCode(condition) + [GotoUnless(end)] + inner + [Goto(check), Mark(end)] + after;
            Jumps(code) <= Ids(code) + outer
  {
    var c := PlainCode(condition);
    var head, tail := [Mark(check)] + c + [GotoUnless(end)], [Goto(check)] + [Mark(end)];
    assert [Goto(check), Mark(end)] == tail;
    PlainHasNoJump(condition);
    JumpsOne(Mark(check));
    JumpsOne(Mark(end));
    JumpsOne(Goto(check));
    JumpsOne(GotoUnless(end));
    OneLabel(check);
    OneLabel(end);
    hide Jumps, Ids;
    JumpsAppend([Mark(check)], c);
    JumpsAppend([Mark(check)] + c, [GotoUnless(end)]);
    JumpsAppend(head, inner);
    JumpsAppend([Goto(check)], [Mark(end)]);
    JumpsAppend(head + inner, tail);
    JumpsAppend(head + inner + tail, after);
    IdsAppend([Mark(check)], c);
    IdsAppend([Mark(check)] + c, [GotoUnless(end)]);
    IdsAppend(head, inner);
    IdsAppend([Goto(check)], [Mark(end)]);
    IdsAppend(head + inner, tail);
    IdsAppend(head + inner + tail, after);
  }

  lemma {:induction false} WhileDeclared(expr: ExpressionCode, header: seq<Token>, body: seq<Node>, next: nat, targets: Targets)
    requires LowerWhile(expr, header, body, next, targets).Some?
    ensures var code := LowerWhile(expr, header, body, next, targets).value.code; Jumps(code) <= Ids(code) + TargetIds(targets)
    decreases body, 1
  {
    hide LowerAll, Jumps, Ids, ExpressionOps;
    var line, own := SplitHeader(header).statement, Cycle(next + 1, next);
    NothingJumps();
    if line != [] {
      ExpressionJumps(expr, line, own);
      AllDeclared(expr, body, next + 2, targets);
      CycleDeclared(next, next + 1, expr(SplitHeader(header).condition), ExpressionOps(expr, line, own), LowerAll(expr, body, next + 2, targets).value.code,
                    TargetIds(targets));
    } else {
      AllDeclared(expr, body, next + 2, own);
      CycleDeclared(next, next + 1, expr(SplitHeader(header).condition), LowerAll(expr, body, next + 2, own).value.code, [], TargetIds(targets));
    }
  }

  // ----- the generated commands are those the machine runs -----

  /** Flat code as lowering leaves it, translated by the code generator. */
  ghost predicate Translated(ctx: SE.Context, code: seq<POp>) {
    && SE.ContextOk(ctx) && StateAt(ctx.env, code, |code|).Some?
    && Level(code, 0) && Unique(code) && Closed(code) && SmallIds(code) && Jumps(code) <= Ids(code)
  }

  function Commands(ctx: SE.Context, code: seq<POp>): seq<Command>
    requires StateAt(ctx.env, code, |code|).Some?
  {
    StateAt(ctx.env, code, |code|).value.code
  }

  /** The program of one module. */
  function ProgramOf(ctx: SE.Context, code: seq<POp>): seq<B.Item>
    requires StateAt(ctx.env, code, |code|).Some?
  {
    LM.Tagged(ctx.m, Commands(ctx, code))
  }

  lemma StateOf(ctx: SE.Context, code: seq<POp>, k: nat)
    requires Translated(ctx, code) && k <= |code|
    ensures StateAt(ctx.env, code, k).Some? && StateAt(ctx.env, code, k).value.code <= Commands(ctx, code)
    ensures RB.Agrees(ctx.env, StateAt(ctx.env, code, k).value)
    ensures Level(code[k..], |StateAt(ctx.env, code, k).value.stack|)
  {
    hide StateAt, Level, Unique, Closed, SmallIds, Jumps, Ids, SE.ContextOk;
    StateBefore(ctx.env, code, k, |code|);
    CommandsStay(ctx.env, code, k, |code|);
    AgreesAt(ctx.env, code, k);
    LevelAt(ctx.env, code, k);
  }

  /** A declared label has its command. */
  lemma LabelFound(ctx: SE.Context, code: seq<POp>, j: nat)
    requires Translated(ctx, code) && j < |code| && code[j].Mark?
    ensures B.FindLabel(ProgramOf(ctx, code), Wrap(code[j].id)) < |ProgramOf(ctx, code)|
  {
    hide StateAt, Level, Unique, Closed, SmallIds, Jumps, Ids, SE.ContextOk, G.EmitOp;
    StateOf(ctx, code, j);
    StateOf(ctx, code, j + 1);
    StateStep(ctx.env, code, j);
    var g, g' := StateAt(ctx.env, code, j).value, StateAt(ctx.env, code, j + 1).value;
    EmitAdds(ctx.env, g, AsPseudo(code[j]));
    var p := |g.code|;
    assert g'.code[p] == Commands(ctx, code)[p];
    assert B.IsLabel(ProgramOf(ctx, code)[p].cmd, Wrap(code[j].id));
  }

  lemma JumpFound(ctx: SE.Context, code: seq<POp>, k: nat)
    requires Translated(ctx, code) && k < |code| && (code[k].Goto? || code[k].GotoUnless?)
    ensures B.FindLabel(ProgramOf(ctx, code), Wrap(code[k].id)) < |ProgramOf(ctx, code)|
  {
    hide StateAt, Level, Unique, Closed, SmallIds, SE.ContextOk, B.FindLabel;
    assert code[k].id in Jumps(code);
    var j :| 0 <= j < |code| && code[j].Mark? && code[j].id == code[k].id;
    LabelFound(ctx, code, j);
  }

  /** A command that does not jump is supported in any program. */
  lemma LineSupported(ctx: SE.Context, program: seq<B.Item>, cmd: Command)
    requires CG.LineOk(ctx, cmd)
    ensures B.SupportedItem(ctx.layout, program, B.Item(ctx.m, cmd))
  {
    hide B.Decode;
  }

  lemma JumpSupported(ctx: SE.Context, program: seq<B.Item>, id: Word, r: Word)
    requires B.FindLabel(program, id) < |program| && r < B.GENERAL_REGISTERS
    ensures B.SupportedItem(ctx.layout, program, B.Item(ctx.m, Cmd(JMP, G.Number(id), NoArg(), NoArg())))
    ensures B.SupportedItem(ctx.layout, program, B.Item(ctx.m, Cmd(JMPCNV, G.Number(id), G.Reg(r), NoArg())))
  {
    hide B.Decode;
    LabelsDecoded(id, r);
  }

  lemma LabelSupported(ctx: SE.Context, program: seq<B.Item>, id: Word)
    ensures B.SupportedItem(ctx.layout, program, B.Item(ctx.m, Cmd(JMP_LABEL, G.Number(id), NoArg(), NoArg())))
  {
    hide B.Decode;
    LabelsDecoded(id, 0);
  }

  /** The commands between two states are all supported. */
  ghost predicate SupportedBetween(ctx: SE.Context, program: seq<B.Item>, before: seq<Command>, after: seq<Command>) {
    before <= after && forall p :: |before| <= p < |after| ==> B.SupportedItem(ctx.layout, program, B.Item(ctx.m, after[p]))
  }

  lemma ExtendsSupported(ctx: SE.Context, program: seq<B.Item>, g: G.GState, g': G.GState)
    requires CS.Extends(ctx, g, g')
    ensures SupportedBetween(ctx, program, g.code, g'.code)
  {
    hide B.SupportedItem, CG.LineOk;
    forall p | |g.code| <= p < |g'.code|
      ensures B.SupportedItem(ctx.layout, program, B.Item(ctx.m, g'.code[p]))
    {
      LineSupported(ctx, program, g'.code[p]);
    }
  }

  lemma OneSupported(ctx: SE.Context, program: seq<B.Item>, before: seq<Command>, between: seq<Command>, cmd: Command)
    requires SupportedBetween(ctx, program, before, between) && B.SupportedItem(ctx.layout, program, B.Item(ctx.m, cmd))
    ensures SupportedBetween(ctx, program, before, between + [cmd])
  {
    hide B.SupportedItem;
  }

  /** One operation: what it leaves is ready for the next, and its commands are supported. */
  lemma OperationSupported(ctx: SE.Context, code: seq<POp>, k: nat)
    requires Translated(ctx, code) && k < |code|
    requires StateAt(ctx.env, code, k).Some? && CS.Ready(ctx, StateAt(ctx.env, code, k).value)
    ensures StateAt(ctx.env, code, k + 1).Some? && CS.Ready(ctx, StateAt(ctx.env, code, k + 1).value)
    ensures SupportedBetween(ctx, ProgramOf(ctx, code), StateAt(ctx.env, code, k).value.code, StateAt(ctx.env, code, k + 1).value.code)
  {
    hide StateAt, Unique, SmallIds, Jumps, Ids, SE.ContextOk, G.EmitOp, B.SupportedItem, ProgramOf, SE.Straight, CS.Ready, CS.Extends, CG.LineOk,
         SupportedBetween, Level;
    var program := ProgramOf(ctx, code);
    StateOf(ctx, code, k);
    StateOf(ctx, code, k + 1);
    StateStep(ctx.env, code, k);
    var g, g' := StateAt(ctx.env, code, k).value, StateAt(ctx.env, code, k + 1).value;
    if code[k].Plain? {
      PlainIsStraight(code, k, |g.stack|);
      CS.EmitSound(ctx, g, code[k].op);
      ExtendsSupported(ctx, program, g, g');
    } else {
      JumpSupports(ctx, code, k, g, g');
    }
  }

  lemma NothingBetween(ctx: SE.Context, program: seq<B.Item>, before: seq<Command>)
    ensures SupportedBetween(ctx, program, before, before)
  {
  }

  lemma PutReady(ctx: SE.Context, g: G.GState, cmds: seq<Command>)
    requires CS.Ready(ctx, g)
    ensures CS.Ready(ctx, G.Put(g, cmds))
  {
  }

  lemma JumpSupports(ctx: SE.Context, code: seq<POp>, k: nat, g: G.GState, g': G.GState)
    requires Translated(ctx, code) && k < |code| && !code[k].Plain? && CS.Ready(ctx, g)
    requires ctx.env.general < TWO64 && G.EmitOp(ctx.env, g, AsPseudo(code[k])) == Some(g')
    ensures CS.Ready(ctx, g') && SupportedBetween(ctx, ProgramOf(ctx, code), g.code, g'.code)
  {
    hide StateAt, Unique, SmallIds, Jumps, Ids, SE.ContextOk, B.SupportedItem, ProgramOf, CS.Ready, CS.Extends, CG.LineOk, SupportedBetween,
         G.LoadOperand, Level;
    var program := ProgramOf(ctx, code);
    NothingBetween(ctx, program, g.code);
    if code[k].Mark? {
      var cmd := Cmd(JMP_LABEL, G.Number(Wrap(code[k].id)), NoArg(), NoArg());
      PutReady(ctx, g, [cmd]);
      LabelSupported(ctx, program, Wrap(code[k].id));
      OneSupported(ctx, program, g.code, g.code, cmd);
    } else {
      assert !code[k].Unresolved?;
      JumpFound(ctx, code, k);
      if code[k].Goto? {
        var cmd := Cmd(JMP, G.Number(Wrap(code[k].id)), NoArg(), NoArg());
        PutReady(ctx, g, [cmd]);
        JumpSupported(ctx, program, Wrap(code[k].id), 0);
        OneSupported(ctx, program, g.code, g.code, cmd);
      } else {
        CS.LoadSound(ctx, g);
        var x := G.LoadOperand(ctx.env, g).value;
        var cmd := Cmd(JMPCNV, G.Number(Wrap(code[k].id)), G.Reg(x.frame.data), NoArg());
        PutReady(ctx, x.rest, [cmd]);
        FewRegisters(ctx);
        JumpSupported(ctx, program, Wrap(code[k].id), x.frame.data);
        ExtendsSupported(ctx, program, g, x.rest);
        OneSupported(ctx, program, g.code, x.rest.code, cmd);
      }
    }
  }

  lemma FewRegisters(ctx: SE.Context)
    requires SE.ContextOk(ctx)
    ensures ctx.env.general <= B.GENERAL_REGISTERS
  {
  }

  lemma BetweenThen(ctx: SE.Context, program: seq<B.Item>, a: seq<Command>, b: seq<Command>, c: seq<Command>)
    requires SupportedBetween(ctx, program, a, b) && SupportedBetween(ctx, program, b, c)
    ensures SupportedBetween(ctx, program, a, c)
  {
    hide B.SupportedItem;
  }

  lemma {:induction false} AllSupported(ctx: SE.Context, code: seq<POp>, k: nat)
    requires Translated(ctx, code) && k <= |code|
    ensures StateAt(ctx.env, code, k).Some? && CS.Ready(ctx, StateAt(ctx.env, code, k).value)
    ensures SupportedBetween(ctx, ProgramOf(ctx, code), [], StateAt(ctx.env, code, k).value.code)
    decreases k
  {
    hide StateAt, Unique, Level, Closed, SmallIds, Jumps, Ids, SE.ContextOk, B.SupportedItem, ProgramOf, SupportedBetween;
    StateOf(ctx, code, k);
    if k == 0 {
      NothingYet(ctx.env, code);
      NothingBetween(ctx, ProgramOf(ctx, code), []);
    } else {
      AllSupported(ctx, code, k - 1);
      OperationSupported(ctx, code, k - 1);
      BetweenThen(ctx, ProgramOf(ctx, code), [], StateAt(ctx.env, code, k - 1).value.code, StateAt(ctx.env, code, k).value.code);
    }
  }

  /** No label is declared twice among the commands. */
  lemma LabelsUnique(ctx: SE.Context, code: seq<POp>)
    requires Translated(ctx, code)
    ensures B.UniqueLabels(ProgramOf(ctx, code))
  {
    hide StateAt, Jumps, Ids, SE.ContextOk, Level, Closed;
    var cmds, n := Commands(ctx, code), |code|;
    forall p, q | 0 <= p < q < |cmds| && cmds[p].code == JMP_LABEL && cmds[q].code == JMP_LABEL
      ensures cmds[p].arg0.data != cmds[q].arg0.data
    {
      var i := LabelComesFrom(ctx.env, code, n, p);
      var j := LabelComesFrom(ctx.env, code, n, q);
      MarkAt(ctx, code, i);
      MarkAt(ctx, code, j);
      assert i != j;
    }
  }

  lemma MarkAt(ctx: SE.Context, code: seq<POp>, j: nat)
    requires Translated(ctx, code) && j < |code| && AsPseudo(code[j]).code == Label
    ensures code[j].Mark? && code[j].id < TWO64
  {
    hide StateAt, Jumps, Ids, SE.ContextOk;
    StateOf(ctx, code, j);
    assert code[j..][0] == code[j];
  }

  /** What lowering and code generation make of a program is a program the byte machine runs. */
  lemma ProgramIsSupported(ctx: SE.Context, code: seq<POp>)
    requires Translated(ctx, code)
    ensures B.SupportedProgram(ctx.layout, ProgramOf(ctx, code)) && B.UniqueLabels(ProgramOf(ctx, code))
  {
    hide StateAt, Jumps, Ids, SE.ContextOk, Level, Unique, Closed, SmallIds, B.SupportedItem;
    AllSupported(ctx, code, |code|);
    LabelsUnique(ctx, code);
  }

  lemma LoweredIsTranslated(ctx: SE.Context, expr: ExpressionCode, nodes: seq<Node>, next: nat)
    requires LowerAll(expr, nodes, next, NoCycle).Some? && AllScoped(nodes) && AllTidy(expr, nodes)
    requires LowerAll(expr, nodes, next, NoCycle).value.next <= TWO64 && SE.ContextOk(ctx)
    requires StateAt(ctx.env, LowerAll(expr, nodes, next, NoCycle).value.code, |LowerAll(expr, nodes, next, NoCycle).value.code|).Some?
    ensures Translated(ctx, LowerAll(expr, nodes, next, NoCycle).value.code)
  {
    hide LowerAll, AllScoped, AllTidy, StateAt, Level, Closed, SE.ContextOk, Jumps, Ids;
    AllNumbered(expr, nodes, next, NoCycle);
    AllLevel(expr, nodes, next, NoCycle);
    AllClosedIffScoped(expr, nodes, next);
    AllBelow(expr, nodes, next, NoCycle, TWO64);
    AllDeclared(expr, nodes, next, NoCycle);
  }

  // ----- from the start -----

  /** The commands name only variables of their own module: no other is placed. */
  lemma OwnVariables(ctx: SE.Context, code: seq<POp>, start: Word, files: map<ModuleId, LO.ModuleFile>)
    requires Translated(ctx, code) && ctx.m in files && files[ctx.m].commands == Commands(ctx, code)
    requires ctx.layout.bases == LO.Place(start, [ctx.m], files).bases
    ensures LM.AllPresent([ctx.m], files) && LM.DependencyOrder(ctx.layout, [ctx.m], files)
  {
    hide StateAt, Jumps, Ids, SE.ContextOk, Level, Unique, Closed, SmallIds, B.SupportedItem;
    var cmds := Commands(ctx, code);
    ProgramIsSupported(ctx, code);
    OnlyModule(start, ctx.m, files);
    var order := [ctx.m];
    forall i, k | 0 <= i < |order| && 0 <= k < |files[order[i]].commands|
      ensures LM.DependsOn(ctx.layout, files[order[i]].commands[k], order[..i + 1])
    {
      assert B.SupportedItem(ctx.layout, ProgramOf(ctx, code), ProgramOf(ctx, code)[k]);
      OwnVariable(ctx, ProgramOf(ctx, code), cmds[k]);
      assert order[..i + 1] == [ctx.m];
    }
  }

  lemma OnlyModule(start: Word, m: ModuleId, files: map<ModuleId, LO.ModuleFile>)
    ensures forall x :: x in LO.Place(start, [m], files).bases <==> x == m
  {
    assert [m][..0] == [];
  }

  lemma OwnVariable(ctx: SE.Context, program: seq<B.Item>, cmd: Command)
    requires B.SupportedItem(ctx.layout, program, B.Item(ctx.m, cmd))
    requires forall x :: x in ctx.layout.bases ==> x == ctx.m
    ensures LM.DependsOn(ctx.layout, cmd, [ctx.m])
  {
  }

  lemma OneModule(m: ModuleId, files: map<ModuleId, LO.ModuleFile>)
    requires m in files
    ensures LM.AllPresent([m], files) && LM.Distinct([m]) && LM.Items([m], files) == LM.Tagged(m, files[m].commands)
  {
    assert [m][..0] == [];
    assert LM.Items([], files) == [];
  }

  /**
   * A structured program of statements and conditions that is accepted by lowering and code generation: its module links, and the machine,
   * loaded and started, halts with exactly the memory the program finishes with, faults exactly when it divides by zero, and else runs
   * for ever as the program does.
   */
  lemma ProgramRunsFromStart(ctx: SE.Context, layout: Layout, constants: seq<ROD.ConstantData>, start: Word,
                             files: map<ModuleId, LO.ModuleFile>, expr: ExpressionCode, nodes: seq<Node>, next: nat, mem: Memory)
    returns (l: S.Link)
    requires LowerAll(expr, nodes, next, NoCycle).Some? && AllHaveBlocks(nodes) && AllScoped(nodes) && AllTidy(expr, nodes)
    requires LowerAll(expr, nodes, next, NoCycle).value.next <= TWO64
    requires SE.ContextOk(ctx) && ctx.layout == layout.(bases := LO.Place(start, [ctx.m], files).bases)
    requires ROD.SizesOk(constants) && U.LaidOut(constants, layout) && U.Loaded(constants, mem)
    requires ctx.space == U.LoadedSpace(ROD.TotalSize(constants))
    requires var code := LowerAll(expr, nodes, next, NoCycle).value.code;
             && StateAt(ctx.env, code, |code|).Some? && ctx.m in files && files[ctx.m].commands == Commands(ctx, code)
    requires LO.LinkedCommands(layout, start, [ctx.m], files).Some? ==>
               |LS.Emit(LO.LinkedCommands(layout, start, [ctx.m], files).value)| < TWO64
    ensures LO.LinkedCommands(layout, start, [ctx.m], files) == Some(l.cs) && l.space == ctx.space
    ensures SpaceOk(l.space) && V.StateOk(l.space, U.MachineStart(l.space, mem))
    ensures forall mem' :: MachineEnds(l, U.MachineStart(l.space, mem), mem')
              <==> Finishes(MeaningOf(ctx), expr, nodes, InMemory(mem), InMemory(mem'))
    ensures forall e :: MachineFaults(l, U.MachineStart(l.space, mem), e)
              <==> e == ZeroDivision && Finishes(MeaningOf(ctx), expr, nodes, InMemory(mem), SE.DivisionByZero)
  {
    hide LowerAll, AllHaveBlocks, AllScoped, AllTidy, StateAt, Translated, LO.LinkedCommands, B.SupportedProgram, B.UniqueLabels, S.LinkOk,
         S.Related, Finishes, LM.DependencyOrder, LS.Emit, SE.ContextOk, U.LaidOut, U.Loaded, LO.Place;
    var code := LowerAll(expr, nodes, next, NoCycle).value.code;
    LoweredIsTranslated(ctx, expr, nodes, next);
    ProgramIsSupported(ctx, code);
    OwnVariables(ctx, code, start, files);
    OneModule(ctx.m, files);
    SameDependencies(layout, ctx.layout, [ctx.m], files);
    U.LaidOutLengths(constants, layout);
    l := LM.ProgramLinks(layout, ctx.space, start, [ctx.m], files);
    U.LaidOutStays(constants, layout, l.layout);
    SpaceFits(ctx);
    L.LinkShape(l);
    U.StartRelated(l, constants, mem);
    ItemsHold(ctx, l.program, Commands(ctx, code));
    StructuredProgramRuns(ctx, l, expr, nodes, next, U.ByteStart(l.space, mem), U.MachineStart(l.space, mem));
  }

  lemma SpaceFits(ctx: SE.Context)
    requires SE.ContextOk(ctx)
    ensures SpaceOk(ctx.space)
  {
  }

  lemma SameDependencies(layout: Layout, layout': Layout, order: seq<ModuleId>, files: map<ModuleId, LO.ModuleFile>)
    requires LM.AllPresent(order, files) && layout.symbols == layout'.symbols && LM.DependencyOrder(layout', order, files)
    ensures LM.DependencyOrder(layout, order, files)
  {
    forall i, k | 0 <= i < |order| && 0 <= k < |files[order[i]].commands|
      ensures LM.DependsOn(layout, files[order[i]].commands[k], order[..i + 1])
    {
      assert LM.DependsOn(layout', files[order[i]].commands[k], order[..i + 1]);
    }
  }

  lemma ItemsHold(ctx: SE.Context, program: seq<B.Item>, cmds: seq<Command>)
    requires program == LM.Tagged(ctx.m, cmds)
    ensures |program| == |cmds| && CC.Holds(ctx, program, 0, cmds)
  {
  }
}
