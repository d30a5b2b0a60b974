/** A run that has failed for good comes to an end: every cycle it is in is left at its next condition. */
module BudgetedRuns {
  import opened ByteCode
  import opened Pseudo
  import opened Syntax
  import opened Tokens
  import opened LoweringSpec
  import opened BreakScoping
  import opened StructuredMeaning
  import opened LoweringCorrect

  // ----- conditions that hold use up a budget -----

  datatype Counted<S> = Counted(s: S, t: nat)

  /** The same meaning, but only t conditions may hold. */
  function Budgeted<S>(m: Meaning<S>): Meaning<Counted<S>> {
    Meaning((op, c: Counted<S>) => c.(s := m.act(op, c.s)),
            (c: Counted<S>) => m.test(c.s) && c.t > 0,
            (c: Counted<S>) => Counted(m.drop(c.s), if m.test(c.s) && c.t > 0 then c.t - 1 else c.t))
  }

  lemma {:induction false} OpsKeepBudget<S>(m: Meaning<S>, ops: seq<PseudoOp>, c: Counted<S>)
    ensures RunOps(Budgeted(m), ops, c).t == c.t
    decreases |ops|
  {
    if ops != [] {
      OpsKeepBudget(m, ops[1..], Budgeted(m).act(ops[0], c));
    }
  }

  /** The execution ends, without a larger budget. */
  ghost predicate Ends<S>(o: Outcome<Counted<S>>, t: nat) {
    !o.Unfinished? && o.s.t <= t
  }

  lemma ExpressionEnds<S>(m: Meaning<S>, expr: ExpressionCode, tokens: seq<Token>, c: Counted<S>)
    ensures Ends(ExecExpression(Budgeted(m), expr, tokens, c), c.t)
  {
    OpsKeepBudget(m, expr(tokens), c);
  }

  /** More fuel than budget is enough. */
  lemma {:induction false} NodeEnds<S>(m: Meaning<S>, expr: ExpressionCode, n: Node, c: Counted<S>, fuel: nat)
    requires fuel > c.t
    ensures Ends(ExecNode(Budgeted(m), expr, n, c, fuel), c.t)
    decreases fuel, n, 0
  {
    hide ExecAll, ExecIf, ExecWhile, ExecExpression;
    match n
    case Expression(tokens) => ExpressionEnds(m, expr, tokens, c);
    case ScopeMark(_) =>
    case Block(children) => AllEnd(m, expr, children, c, fuel);
    case IfGroup(clauses) =>
      if clauses != [] {
        IfEnds(m, expr, clauses, c, fuel);
      }
    case WhileCycle(header, body) => WhileEnds(m, expr, header, body, c, fuel);
  }

  lemma {:induction false} AllEnd<S>(m: Meaning<S>, expr: ExpressionCode, nodes: seq<Node>, c: Counted<S>, fuel: nat)
    requires fuel > c.t
    ensures Ends(ExecAll(Budgeted(m), expr, nodes, c, fuel), c.t)
    decreases fuel, nodes, 0
  {
    hide ExecNode;
    if nodes != [] {
      NodeEnds(m, expr, nodes[0], c, fuel);
      var o := ExecNode(Budgeted(m), expr, nodes[0], c, fuel);
      if o.Normal? {
        AllEnd(m, expr, nodes[1..], o.s, fuel);
      }
    }
  }

  lemma {:induction false} BranchEnds<S>(m: Meaning<S>, expr: ExpressionCode, k: Clause, c: Counted<S>, fuel: nat)
    requires fuel > c.t
    ensures Ends(ExecBranch(Budgeted(m), expr, k, c, fuel), c.t)
    decreases fuel, k, 0
  {
    hide ExecAll, ExecExpression;
    if LineOf(k) != [] {
      ExpressionEnds(m, expr, LineOf(k), c);
    } else {
      AllEnd(m, expr, k.body, c, fuel);
    }
  }

  lemma {:induction false} ClausesEnd<S>(m: Meaning<S>, expr: ExpressionCode, clauses: seq<Clause>, c: Counted<S>, fuel: nat)
    requires fuel > c.t
    ensures Ends(ExecClauses(Budgeted(m), expr, clauses, c, fuel), c.t)
    decreases fuel, clauses, 0
  {
    hide ExecBranch;
    if clauses != [] {
      var k := clauses[0];
      if k.kind == Else {
        BranchEnds(m, expr, k, c, fuel);
        var o := ExecBranch(Budgeted(m), expr, k, c, fuel);
        if o.Normal? {
          ClausesEnd(m, expr, clauses[1..], o.s, fuel);
        }
      } else {
        OpsKeepBudget(m, expr(ConditionTokens(k.tokens)), c);
        var c2 := Budgeted(m).drop(Ask(Budgeted(m), expr, k.tokens, c));
        BranchEnds(m, expr, k, c2, fuel);
        ClausesEnd(m, expr, clauses[1..], c2, fuel);
      }
    }
  }

  lemma {:induction false} IfEnds<S>(m: Meaning<S>, expr: ExpressionCode, clauses: seq<Clause>, c: Counted<S>, fuel: nat)
    requires clauses != [] && fuel > c.t
    ensures Ends(ExecIf(Budgeted(m), expr, clauses, c, fuel), c.t)
    decreases fuel, clauses, 1
  {
    hide ExecClauses, ExecAll;
    ClausesEnd(m, expr, clauses, c, fuel);
    var o, last := ExecClauses(Budgeted(m), expr, clauses, c, fuel), clauses[|clauses| - 1];
    if o.Normal? && LineOf(last) != [] {
      AllEnd(m, expr, last.body, o.s, fuel);
    }
  }

  lemma {:induction false} LoopEnds<S>(m: Meaning<S>, expr: ExpressionCode, header: seq<Token>, body: seq<Node>, c: Counted<S>, fuel: nat)
    requires fuel > c.t
    ensures Ends(ExecLoop(Budgeted(m), expr, header, body, c, fuel), c.t)
    decreases fuel, body, 1
  {
    hide ExecAll, ExecExpression;
    OpsKeepBudget(m, expr(ConditionTokens(header)), c);
    var c1 := Ask(Budgeted(m), expr, header, c);
    if Budgeted(m).test(c1) {
      var line, c2 := StatementTokens(header), Budgeted(m).drop(c1);
      ExpressionEnds(m, expr, line, c2);
      AllEnd(m, expr, body, c2, fuel - 1);
      var o := if line != [] then ExecExpression(Budgeted(m), expr, line, c2) else ExecAll(Budgeted(m), expr, body, c2, fuel - 1);
      if o.Normal? || o.Continued? {
        LoopEnds(m, expr, header, body, o.s, fuel - 1);
      }
    }
  }

  lemma {:induction false} WhileEnds<S>(m: Meaning<S>, expr: ExpressionCode, header: seq<Token>, body: seq<Node>, c: Counted<S>, fuel: nat)
    requires fuel > c.t
    ensures Ends(ExecWhile(Budgeted(m), expr, header, body, c, fuel), c.t)
    decreases fuel, body, 2
  {
    hide ExecLoop, ExecAll;
    LoopEnds(m, expr, header, body, c, fuel);
    var o := ExecLoop(Budgeted(m), expr, header, body, c, fuel);
    if o.Normal? && StatementTokens(header) != [] {
      AllEnd(m, expr, body, o.s, fuel);
    }
  }

  // ----- the budget does not show -----

  /** The same place and state. */
  predicate Same<S(==)>(c: Conf<S>, k: Conf<Counted<S>>) {
    k.pc == c.pc && k.s.s == c.s
  }

  /** As long as the budget has not run out the run is the same. */
  lemma {:induction false} BudgetHolds<S>(m: Meaning<S>, code: seq<POp>, c: Conf<S>, t: nat, n: nat)
    requires n <= t
    ensures Same(Run(m, code, c, n), Run(Budgeted(m), code, Conf(c.pc, Counted(c.s, t)), n))
    decreases n
  {
    if n > 0 && c.pc < |code| {
      var k := Step(Budgeted(m), code, Conf(c.pc, Counted(c.s, t)));
      assert Same(Step(m, code, c), k) && k.s.t >= t - 1;
      BudgetHolds(m, code, Step(m, code, c), k.s.t, n - 1);
    }
  }

  /** Failed states fail every test and are never left. */
  ghost predicate ForGood<S(!new)>(m: Meaning<S>, failed: S -> bool) {
    && (forall s {:trigger m.test(s)} {:trigger m.drop(s)} :: failed(s) ==> !m.test(s) && failed(m.drop(s)))
    && (forall s, op {:trigger m.act(op, s)} :: failed(s) ==> failed(m.act(op, s)))
  }

  /** A failed run is the same with any budget, and stays failed. */
  lemma {:induction false} FailedRun<S(!new)>(m: Meaning<S>, failed: S -> bool, code: seq<POp>, c: Conf<S>, t: nat, n: nat)
    requires ForGood(m, failed) && failed(c.s)
    ensures Same(Run(m, code, c, n), Run(Budgeted(m), code, Conf(c.pc, Counted(c.s, t)), n)) && failed(Run(m, code, c, n).s)
    decreases n
  {
    if n > 0 && c.pc < |code| {
      var k := Step(Budgeted(m), code, Conf(c.pc, Counted(c.s, t)));
      assert Same(Step(m, code, c), k);
      FailedRun(m, failed, code, Step(m, code, c), k.s.t, n - 1);
    }
  }

  /** The flat code of a program halts once it has failed. */
  lemma FailedHalts<S(!new)>(m: Meaning<S>, failed: S -> bool, expr: ExpressionCode, nodes: seq<Node>, next: nat, s: S, d: nat)
    returns (s': S)
    requires LowerAll(expr, nodes, next, NoCycle).Some? && AllHaveBlocks(nodes) && AllScoped(nodes)
    requires ForGood(m, failed) && failed(Run(m, LowerAll(expr, nodes, next, NoCycle).value.code, Conf(0, s), d).s)
    ensures failed(s') && Halts(m, LowerAll(expr, nodes, next, NoCycle).value.code, s, s')
  {
    hide ExecAll, LowerAll, AllScoped, AllHaveBlocks, Step;
    var code, c := LowerAll(expr, nodes, next, NoCycle).value.code, Conf(0, s);
    var start := Counted(s, d);
    AllEnd(m, expr, nodes, start, d + 1);
    AllStay(Budgeted(m), expr, nodes, start, d + 1);
    var last := ExecAll(Budgeted(m), expr, nodes, start, d + 1).s;
    assert ExecAll(Budgeted(m), expr, nodes, start, d + 1) == Normal(last);
    ProgramMeaning(Budgeted(m), expr, nodes, next, start, last);
    var k: nat :| Run(Budgeted(m), code, Conf(0, start), k) == Conf(|code|, last);
    s' := last.s;
    if k <= d {
      BudgetHolds(m, code, c, d, k);
      StaysHalted(m, code, c, k, d - k);
    } else {
      BudgetHolds(m, code, c, d, d);
      var there := Run(Budgeted(m), code, Conf(0, start), d);
      RunAdd(Budgeted(m), code, Conf(0, start), d, k - d);
      RunAdd(m, code, c, d, k - d);
      FailedRun(m, failed, code, Run(m, code, c, d), there.s.t, k - d);
    }
    assert Run(m, code, c, k) == Conf(|code|, s');
  }
}
