/** The operand stack along flat code: empty at every label and jump, one condition at every conditional jump. */
module LevelCode {
  import opened ByteCode
  import opened Pseudo
  import opened Syntax
  import opened Tokens
  import opened LoweringSpec
  import opened StackEvaluator
  import opened StackHeight
  import E = Expressions

  /** Starting with h operands the code ends with none, and has as many as its jumps and labels want. */
  ghost predicate Level(code: seq<POp>, h: int) {
    if code == [] then h == 0
    else
      match code[0]
      case Plain(op) => Straight(op) && Level(code[1..], h + Delta(op))
      case Mark(_) => h == 0 && Level(code[1..], 0)
      case Goto(_) => h == 0 && Level(code[1..], 0)
      case GotoUnless(_) => h == 1 && Level(code[1..], 0)
      case Unresolved(_) => h == 0 && Level(code[1..], 0)
  }

  lemma {:induction false} LevelAppend(a: seq<POp>, b: seq<POp>, h: int)
    requires Level(a, h) && Level(b, 0)
    ensures Level(a + b, h)
    decreases |a|
  {
    hide Delta, Straight;
    if a == [] {
      assert a + b == b;
    } else {
      assert (a + b)[0] == a[0] && (a + b)[1..] == a[1..] + b;
      LevelAppend(a[1..], b, if a[0].Plain? then h + Delta(a[0].op) else 0);
    }
  }

  lemma LevelOne(op: POp)
    requires op.Mark? || op.Goto? || op.Unresolved?
    ensures Level([op], 0)
  {
    assert [op][1..] == [];
  }

  lemma {:induction false} LevelPlain(ops: seq<PseudoOp>, rest: seq<POp>, h: int)
    requires E.AllStraight(ops) && Level(rest, h + Height(ops))
    ensures Level(PlainCode(ops) + rest, h)
    decreases |ops|
  {
    hide Delta, Straight;
    if ops == [] {
      assert PlainCode(ops) + rest == rest;
    } else {
      var code := PlainCode(ops) + rest;
      LevelPlain(ops[1..], rest, h + Delta(ops[0]));
      assert code[0] == Plain(ops[0]) && code[1..] == PlainCode(ops[1..]) + rest;
    }
  }

  // ----- statements and conditions -----

  /** A statement leaves no operand behind. */
  ghost predicate Statement(expr: ExpressionCode, tokens: seq<Token>) {
    IsBreak(tokens) || IsContinue(tokens) || (E.AllStraight(expr(tokens)) && Height(expr(tokens)) == 0)
  }

  /** A condition leaves its value. */
  ghost predicate Condition(expr: ExpressionCode, header: seq<Token>) {
    header != [] ==> E.AllStraight(expr(SplitHeader(header).condition)) && Height(expr(SplitHeader(header).condition)) == 1
  }

  /** What is translated of a node are statements and conditions. */
  ghost predicate Tidy(expr: ExpressionCode, n: Node)
    decreases n, 0
  {
    match n
    case Expression(tokens) => Statement(expr, tokens)
    case ScopeMark(_) => true
    case Block(children) => AllTidy(expr, children)
    case IfGroup(clauses) => clauses == [] || IfTidy(expr, clauses)
    case WhileCycle(header, body) => WhileTidy(expr, header, body)
  }

  ghost predicate AllTidy(expr: ExpressionCode, nodes: seq<Node>)
    decreases nodes, 0
  {
    nodes == [] || (Tidy(expr, nodes[0]) && AllTidy(expr, nodes[1..]))
  }

  ghost predicate BranchTidy(expr: ExpressionCode, c: Clause)
    decreases c, 0
  {
    if LineOf(c) != [] then Statement(expr, LineOf(c)) else AllTidy(expr, c.body)
  }

  ghost predicate ClausesTidy(expr: ExpressionCode, clauses: seq<Clause>)
    decreases clauses, 0
  {
    clauses == [] || (&& (clauses[0].kind != Else ==> Condition(expr, clauses[0].tokens))
                      && BranchTidy(expr, clauses[0]) && ClausesTidy(expr, clauses[1..]))
  }

  ghost predicate IfTidy(expr: ExpressionCode, clauses: seq<Clause>)
    requires clauses != []
    decreases clauses, 1
  {
    var last := clauses[|clauses| - 1];
    ClausesTidy(expr, clauses) && (LineOf(last) == [] || AllTidy(expr, last.body))
  }

  ghost predicate WhileTidy(expr: ExpressionCode, header: seq<Token>, body: seq<Node>)
    decreases body, 1
  {
    && Condition(expr, header) && AllTidy(expr, body)
    && (header != [] && SplitHeader(header).statement != [] ==> Statement(expr, SplitHeader(header).statement))
  }

  // ----- lowering keeps the level -----

  lemma StatementLevel(expr: ExpressionCode, tokens: seq<Token>, targets: Targets)
    requires Statement(expr, tokens)
    ensures Level(ExpressionOps(expr, tokens, targets), 0)
  {
    if IsBreak(tokens) || IsContinue(tokens) {
      LevelOne(ExpressionOps(expr, tokens, targets)[0]);
    } else {
      LevelPlain(expr(tokens), [], 0);
      assert PlainCode(expr(tokens)) + [] == PlainCode(expr(tokens));
    }
  }

  lemma ConditionLevel(expr: ExpressionCode, header: seq<Token>, id: nat)
    requires header != [] && Condition(expr, header)
    ensures Level(ConditionOps(expr, header) + [GotoUnless(id)], 0)
  {
    var jump := [GotoUnless(id)];
    assert jump[1..] == [] && Level(jump, 1);
    LevelPlain(expr(SplitHeader(header).condition), jump, 0);
  }

  lemma MarkLevel(opens: bool)
    ensures Level([Plain(Op(if opens then PushFrame else PopFrame))], 0)
  {
    var code := [Plain(Op(if opens then PushFrame else PopFrame))];
    assert code[1..] == [];
  }

  lemma {:induction false} NodeLevel(expr: ExpressionCode, n: Node, next: nat, targets: Targets)
    requires Tidy(expr, n) && LowerNode(expr, n, next, targets).Some?
    ensures Level(LowerNode(expr, n, next, targets).value.code, 0)
    decreases n, 0
  {
    hide Level, Statement, LowerAll, LowerIf, LowerWhile;
    match n
    case Expression(tokens) => StatementLevel(expr, tokens, targets);
    case ScopeMark(opens) => MarkLevel(opens);
    case Block(children) => AllLevel(expr, children, next, targets);
    case IfGroup(clauses) =>
      if clauses == [] {
        EmptyLevel();
      } else {
        IfLevel(expr, clauses, next, targets);
      }
    case WhileCycle(header, body) =>
      if body == [] {
        EmptyLevel();
      } else {
        WhileLevel(expr, header, body, next, targets);
      }
  }

  lemma EmptyLevel()
    ensures Level([], 0)
  {
  }

  lemma {:induction false} AllLevel(expr: ExpressionCode, nodes: seq<Node>, next: nat, targets: Targets)
    requires AllTidy(expr, nodes) && LowerAll(expr, nodes, next, targets).Some?
    ensures Level(LowerAll(expr, nodes, next, targets).value.code, 0)
    decreases nodes, 0
  {
    hide Level, Tidy, LowerNode;
    if nodes == [] {
      EmptyLevel();
    } else {
      var first := LowerNode(expr, nodes[0], next, targets).value;
      NodeLevel(expr, nodes[0], next, targets);
      AllLevel(expr, nodes[1..], first.next, targets);
      LevelAppend(first.code, LowerAll(expr, nodes[1..], first.next, targets).value.code, 0);
    }
  }

  lemma {:induction false} BranchLevel(expr: ExpressionCode, c: Clause, next: nat, targets: Targets)
    requires BranchTidy(expr, c) && LowerBranch(expr, c, next, targets).Some?
    ensures Level(LowerBranch(expr, c, next, targets).value.code, 0)
    decreases c, 0
  {
    hide Level, Statement, LowerAll;
    if LineOf(c) != [] {
      StatementLevel(expr, LineOf(c), targets);
    } else {
      AllLevel(expr, c.body, next, targets);
    }
  }

  /** Pieces in a row. */
  lemma ClauseLevel(condition: seq<POp>, id: nat, branch: seq<POp>, leave: seq<POp>, rest: seq<POp>)
    requires Level(condition + [GotoUnless(id)], 0) && Level(branch, 0) && Level(rest, 0)
    requires leave == [] || (|leave| == 1 && leave[0].Goto?)
    ensures Level(condition + [GotoUnless(id)] + branch + leave + [Mark(id)] + rest, 0)
  {
    hide Level;
    var x := condition + [GotoUnless(id)];
    if leave == [] {
      EmptyLevel();
    } else {
      LevelOne(leave[0]);
      assert leave == [leave[0]];
    }
    LevelOne(Mark(id));
    LevelAppend(x, branch, 0);
    LevelAppend(x + branch, leave, 0);
    LevelAppend(x + branch + leave, [Mark(id)], 0);
    LevelAppend(x + branch + leave + [Mark(id)], rest, 0);
  }

  lemma {:induction false} ClausesLevel(expr: ExpressionCode, clauses: seq<Clause>, next: nat, targets: Targets, end: Option<nat>)
    requires ClausesTidy(expr, clauses) && LowerClauses(expr, clauses, next, targets, end).Some?
    ensures Level(LowerClauses(expr, clauses, next, targets, end).value.code, 0)
    decreases clauses, 0
  {
    hide Level, LowerBranch, BranchTidy, Condition;
    if clauses == [] {
      EmptyLevel();
    } else {
      var c := clauses[0];
      var start := if c.kind == Else then next else next + 1;
      BranchLevel(expr, c, start, targets);
      var branch := LowerBranch(expr, c, start, targets).value;
      ClausesLevel(expr, clauses[1..], branch.next, targets, end);
      var rest := LowerClauses(expr, clauses[1..], branch.next, targets, end).value;
      if c.kind == Else {
        LevelAppend(branch.code, rest.code, 0);
      } else {
        ConditionLevel(expr, c.tokens, next);
        ClauseLevel(ConditionOps(expr, c.tokens), next, branch.code, if end.Some? then [Goto(end.value)] else [], rest.code);
      }
    }
  }

  lemma {:induction false} IfLevel(expr: ExpressionCode, clauses: seq<Clause>, next: nat, targets: Targets)
    requires clauses != [] && IfTidy(expr, clauses) && LowerIf(expr, clauses, next, targets).Some?
    ensures Level(LowerIf(expr, clauses, next, targets).value.code, 0)
    decreases clauses, 1
  {
    hide Level, LowerClauses, LowerAll, ClausesTidy, AllTidy, GroupOk;
    var several := |clauses| > 1;
    var start, end := if several then next + 1 else next, if several then Some(next) else None;
    ClausesLevel(expr, clauses, start, targets, end);
    var body := LowerClauses(expr, clauses, start, targets, end).value;
    var last := clauses[|clauses| - 1];
    EmptyLevel();
    if LineOf(last) != [] {
      AllLevel(expr, last.body, body.next, targets);
    }
    LevelOne(Mark(next));
    var mark := if several then [Mark(next)] else [];
    LevelAppend(body.code, mark, 0);
    LevelAppend(body.code + mark, if LineOf(last) == [] then [] else LowerAll(expr, last.body, body.next, targets).value.code, 0);
  }

  lemma CycleLevel(check: nat, end: nat, condition: seq<POp>, inner: seq<POp>, after: seq<POp>)
    requires Level(condition + [GotoUnless(end)], 0) && Level(inner, 0) && Level(after, 0)
    ensures Level([Mark(check)] + condition + [GotoUnless(end)] + inner + [Goto(check), Mark(end)] + after, 0)
  {
    hide Level;
    LevelOne(Mark(check));
    LevelOne(Goto(check));
    LevelOne(Mark(end));
    LevelAppend([Goto(check)], [Mark(end)], 0);
    assert [Goto(check), Mark(end)] == [Goto(check)] + [Mark(end)];
    LevelAppend([Mark(check)], condition + [GotoUnless(end)], 0);
    assert [Mark(check)] + (condition + [GotoUnless(end)]) == [Mark(check)] + condition + [GotoUnless(end)];
    var head := [Mark(check)] + condition + [GotoUnless(end)];
    LevelAppend(head, inner, 0);
    LevelAppend(head + inner, [Goto(check), Mark(end)], 0);
    LevelAppend(head + inner + [Goto(check), Mark(end)], after, 0);
  }

  lemma {:induction false} WhileLevel(expr: ExpressionCode, header: seq<Token>, body: seq<Node>, next: nat, targets: Targets)
    requires WhileTidy(expr, header, body) && LowerWhile(expr, header, body, next, targets).Some?
    ensures Level(LowerWhile(expr, header, body, next, targets).value.code, 0)
    decreases body, 1
  {
    hide Level, LowerAll, AllTidy, Statement, Condition, ExpressionOps, ConditionOps;
    var line, own := SplitHeader(header).statement, Cycle(next + 1, next);
    ConditionLevel(expr, header, next + 1);
    EmptyLevel();
    if line != [] {
      StatementLevel(expr, line, own);
      AllLevel(expr, body, next + 2, targets);
      CycleLevel(next, next + 1, ConditionOps(expr, header), ExpressionOps(expr, line, own), LowerAll(expr, body, next + 2, targets).value.code);
    } else {
      AllLevel(expr, body, next + 2, own);
      CycleLevel(next, next + 1, ConditionOps(expr, header), LowerAll(expr, body, next + 2, own).value.code, []);
    }
  }
}
