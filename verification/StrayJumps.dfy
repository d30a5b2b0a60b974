/** A break or continue outside every cycle: its jump keeps label 0, which may be a label of the program. */
module StrayJumps {
  import opened Words
  import opened ByteCode
  import opened Pseudo
  import opened Syntax
  import opened Tokens
  import opened LoweringSpec
  import opened BreakScoping
  import opened StructuredMeaning
  import opened FirstBranch
  import opened LoweringCorrect
  import opened LevelCode
  import opened FlatCodegen
  import opened CompiledProgram
  import opened ProgramToMachine
  import opened ProgramStart
  import B = ByteMachine
  import G = CodegenSpec
  import LM = LinkedModules
  import SE = StackEvaluator

  /** The flat code does what it would do if all were in a cycle with both labels 0. */
  lemma StrayIsJump<S>(m: Meaning<S>, code: seq<POp>, c: Conf<S>)
    requires c.pc < |code|
    ensures Step(m, code, c) == Step(m, ClaimAll(code, 0, 0), c)
  {
    SameLabels(code, 0);
    if code[c.pc].Goto? || code[c.pc].GotoUnless? {
      SameLabels(code, code[c.pc].id);
    }
  }

  lemma SameLabels(code: seq<POp>, id: nat)
    ensures Find(code, id) == Find(ClaimAll(code, 0, 0), id)
  {
    var i, j := Find(code, id), Find(ClaimAll(code, 0, 0), id);
    if i < |code| {
      assert ClaimAll(code, 0, 0)[i] == Mark(id);
    }
    if j < |code| {
      assert code[j] == Mark(id);
    }
  }

  /** Both are given the same commands. */
  lemma SameCommands(env: G.Env, code: seq<POp>, k: nat)
    requires k <= |code|
    ensures StateAt(env, ClaimAll(code, 0, 0), k) == StateAt(env, code, k)
  {
    hide G.EmitAll;
    assert PseudoCode(ClaimAll(code, 0, 0)[..k]) == PseudoCode(code[..k]);
  }

  lemma ClaimedIsTranslated(ctx: SE.Context, expr: ExpressionCode, nodes: seq<Node>, next: nat)
    requires LowerAll(expr, nodes, next, NoCycle).Some? && AllTidy(expr, nodes) && SE.ContextOk(ctx)
    requires next == 0 < LowerAll(expr, nodes, next, NoCycle).value.next <= TWO64
    requires StateAt(ctx.env, LowerAll(expr, nodes, next, NoCycle).value.code, |LowerAll(expr, nodes, next, NoCycle).value.code|).Some?
    ensures Translated(ctx, ClaimAll(LowerAll(expr, nodes, next, NoCycle).value.code, 0, 0))
  {
    hide LowerAll, AllTidy, StateAt, Level, SE.ContextOk, Jumps, Ids;
    var code, own := LowerAll(expr, nodes, next, NoCycle).value.code, Cycle(0, 0);
    AllClaimed(expr, nodes, next, 0, 0);
    AllNumbered(expr, nodes, next, own);
    AllLevel(expr, nodes, next, own);
    AllBelow(expr, nodes, next, own, TWO64);
    AllDeclared(expr, nodes, next, own);
    SameCommands(ctx.env, code, |code|);
  }

  /** The jump command of a stray break or continue. */
  lemma StrayCommand(ctx: SE.Context, code: seq<POp>, k: nat) returns (p: nat)
    requires StateAt(ctx.env, code, |code|).Some? && k < |code| && code[k].Unresolved?
    ensures p < |Commands(ctx, code)| && Commands(ctx, code)[p] == Cmd(JMP, G.Number(0), NoArg(), NoArg())
  {
    hide StateAt, G.EmitAll;
    StateBefore(ctx.env, code, k, |code|);
    StateBefore(ctx.env, code, k + 1, |code|);
    CommandsStay(ctx.env, code, k + 1, |code|);
    StateStep(ctx.env, code, k);
    p := |StateAt(ctx.env, code, k).value.code|;
    assert StateAt(ctx.env, code, k + 1).value.code[p] == Cmd(JMP, G.Number(0), NoArg(), NoArg());
  }

  /** A label command of the program is a label of the code. */
  lemma LabelIsDeclared(ctx: SE.Context, code: seq<POp>, id: Word)
    requires StateAt(ctx.env, code, |code|).Some? && Level(code, 0) && SmallIds(code)
    requires B.FindLabel(ProgramOf(ctx, code), id) < |ProgramOf(ctx, code)|
    ensures id in Ids(code)
  {
    hide StateAt, Level, SmallIds;
    var q := B.FindLabel(ProgramOf(ctx, code), id);
    assert Commands(ctx, code)[q] == ProgramOf(ctx, code)[q].cmd;
    var j := LabelComesFrom(ctx.env, code, |code|, q);
    LevelAt(ctx.env, code, j);
    LabelIsMark(code, j, |StateAt(ctx.env, code, j).value.stack|, id);
  }

  /**
   * A program accepted by lowering and code generation can be linked exactly when every break and continue is inside a cycle, or label 0
   * is one of its own: the first label number handed out, when any is. A stray jump then goes to that label.
   */
  lemma StrayProgramLinks(ctx: SE.Context, expr: ExpressionCode, nodes: seq<Node>, next: nat)
    requires LowerAll(expr, nodes, next, NoCycle).Some? && AllTidy(expr, nodes) && SE.ContextOk(ctx)
    requires LowerAll(expr, nodes, next, NoCycle).value.next <= TWO64
    requires StateAt(ctx.env, LowerAll(expr, nodes, next, NoCycle).value.code, |LowerAll(expr, nodes, next, NoCycle).value.code|).Some?
    ensures var l := LowerAll(expr, nodes, next, NoCycle).value;
            && (B.SupportedProgram(ctx.layout, ProgramOf(ctx, l.code)) <==> AllScoped(nodes) || (next == 0 && l.next > 0))
            && (next == 0 && l.next > 0 ==> Find(l.code, 0) < |l.code|)
  {
    hide LowerAll, AllTidy, StateAt, Level, SE.ContextOk, Jumps, SmallIds, ProgramOf, B.SupportedProgram, Translated;
    var l := LowerAll(expr, nodes, next, NoCycle).value;
    AllNumbered(expr, nodes, next, NoCycle);
    if next == 0 && l.next > 0 {
      ClaimedIsTranslated(ctx, expr, nodes, next);
      SameCommands(ctx.env, l.code, |l.code|);
      ProgramIsSupported(ctx, ClaimAll(l.code, 0, 0));
      SameProgram(ctx, l.code, ClaimAll(l.code, 0, 0));
      assert 0 in Ids(l.code);
      DeclaredIsFound(l.code, 0);
    } else if AllScoped(nodes) {
      LoweredIsTranslated(ctx, expr, nodes, next);
      ProgramIsSupported(ctx, l.code);
    } else {
      AllClosedIffScoped(expr, nodes, next);
      var k :| 0 <= k < |l.code| && l.code[k].Unresolved?;
      var p := StrayCommand(ctx, l.code, k);
      AllLevel(expr, nodes, next, NoCycle);
      AllBelow(expr, nodes, next, NoCycle, TWO64);
      BelowIsSmall(l.code);
      if B.SupportedProgram(ctx.layout, ProgramOf(ctx, l.code)) {
        SupportedJump(ctx, l.code, p);
        LabelIsDeclared(ctx, l.code, 0);
      }
    }
  }

  lemma SameProgram(ctx: SE.Context, a: seq<POp>, b: seq<POp>)
    requires StateAt(ctx.env, a, |a|).Some? && StateAt(ctx.env, b, |b|) == StateAt(ctx.env, a, |a|)
    ensures ProgramOf(ctx, a) == ProgramOf(ctx, b)
  {
    hide StateAt;
  }

  lemma DeclaredIsFound(code: seq<POp>, id: nat)
    requires id in Ids(code)
    ensures Find(code, id) < |code|
  {
    var k :| 0 <= k < |code| && code[k].Mark? && code[k].id == id;
    assert code[k] == Mark(id);
  }

  lemma BelowIsSmall(code: seq<POp>)
    requires Below(code, TWO64)
    ensures SmallIds(code)
  {
  }

  lemma SupportedJump(ctx: SE.Context, code: seq<POp>, p: nat)
    requires StateAt(ctx.env, code, |code|).Some? && p < |Commands(ctx, code)|
    requires Commands(ctx, code)[p] == Cmd(JMP, G.Number(0), NoArg(), NoArg())
    requires B.SupportedProgram(ctx.layout, ProgramOf(ctx, code))
    ensures B.FindLabel(ProgramOf(ctx, code), 0) < |ProgramOf(ctx, code)|
  {
    hide StateAt, B.Decode;
    assert ProgramOf(ctx, code)[p].cmd == Commands(ctx, code)[p];
    LabelsDecoded(0, 0);
    assert B.SupportedItem(ctx.layout, ProgramOf(ctx, code), ProgramOf(ctx, code)[p]);
  }

  // ----- where a stray break leads -----

  function BreakWord(): seq<Token> {
    [Token(Keyword, Name("break"))]
  }

  lemma {:induction false} BreakIsLast(expr: ExpressionCode, nodes: seq<Node>, next: nat)
    requires LowerAll(expr, nodes + [Expression(BreakWord())], next, NoCycle).Some?
    ensures var code := LowerAll(expr, nodes + [Expression(BreakWord())], next, NoCycle).value.code;
            code != [] && code[|code| - 1] == Unresolved(true)
    decreases |nodes|
  {
    hide LowerNode;
    var all, none: seq<Node> := nodes + [Expression(BreakWord())], [];
    if nodes == [] {
      assert all[0] == Expression(BreakWord()) && all[1..] == none;
      assert LowerNode(expr, all[0], next, NoCycle) == Some(Lowered([Unresolved(true)], next)) by {
        StrayBreak(expr, next);
      }
    } else {
      assert all[0] == nodes[0] && all[1..] == nodes[1..] + [Expression(BreakWord())];
      BreakIsLast(expr, nodes[1..], LowerNode(expr, nodes[0], next, NoCycle).value.next);
    }
  }

  lemma StrayBreak(expr: ExpressionCode, next: nat)
    ensures LowerNode(expr, Expression(BreakWord()), next, NoCycle) == Some(Lowered([Unresolved(true)], next))
  {
  }

  lemma {:induction false} NeverAtTheEnd<S>(m: Meaning<S>, code: seq<POp>, c: Conf<S>, n: nat)
    requires code != [] && code[|code| - 1].Unresolved? && 0 in Ids(code) && Jumps(code) <= Ids(code) && c.pc < |code|
    ensures Run(m, code, c, n).pc < |code|
    decreases n
  {
    if n > 0 {
      match code[c.pc] {
        case Goto(id) =>
          assert id in Jumps(code);
          DeclaredIsFound(code, id);
        case GotoUnless(id) =>
          assert id in Jumps(code);
          DeclaredIsFound(code, id);
        case _ => DeclaredIsFound(code, 0);
      }
      NeverAtTheEnd(m, code, Step(m, code, c), n - 1);
    }
  }

  /** A program that ends in a stray break and has any label never ends: the break leads back to the first label. */
  lemma StrayBreakRepeats<S>(m: Meaning<S>, expr: ExpressionCode, nodes: seq<Node>, s: S, s': S)
    requires LowerAll(expr, nodes + [Expression(BreakWord())], 0, NoCycle).Some?
    requires LowerAll(expr, nodes + [Expression(BreakWord())], 0, NoCycle).value.next > 0
    ensures !Halts(m, LowerAll(expr, nodes + [Expression(BreakWord())], 0, NoCycle).value.code, s, s')
  {
    hide LowerAll, Jumps, Ids;
    var all := nodes + [Expression(BreakWord())];
    var code := LowerAll(expr, all, 0, NoCycle).value.code;
    AllNumbered(expr, all, 0, NoCycle);
    AllDeclared(expr, all, 0, NoCycle);
    BreakIsLast(expr, nodes, 0);
    forall n: nat
      ensures Run(m, code, Conf(0, s), n) != Conf(|code|, s')
    {
      NeverAtTheEnd(m, code, Conf(0, s), n);
    }
  }
}
