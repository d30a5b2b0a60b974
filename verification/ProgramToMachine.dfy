/** From a structured program to the machine: lowering, code generation and linking together keep its meaning. */
module ProgramToMachine {
  import opened Words
  import opened ByteCode
  import opened Machine
  import opened Pseudo
  import opened Syntax
  import opened Tokens
  import opened LoweringSpec
  import opened BreakScoping
  import opened StructuredMeaning
  import opened LoweringCorrect
  import opened LevelCode
  import opened FlatCodegen
  import opened CompiledProgram
  import CC = CompiledCode
  import SE = StackEvaluator
  import S = Simulation
  import L = LinkedRun
  import B = ByteMachine
  import BR = BudgetedRuns
  import V = VM

  // ----- label ids -----

  ghost predicate Below(code: seq<POp>, bound: nat) {
    forall k :: 0 <= k < |code| ==>
      match code[k] case Mark(id) => id < bound case Goto(id) => id < bound case GotoUnless(id) => id < bound case _ => true
  }

  predicate TargetsBelow(targets: Targets, bound: nat) {
    targets.Cycle? ==> targets.end < bound && targets.check < bound
  }

  lemma BelowAppend(a: seq<POp>, b: seq<POp>, bound: nat)
    ensures Below(a + b, bound) <==> Below(a, bound) && Below(b, bound)
  {
    forall k | 0 <= k < |a|
      ensures (a + b)[k] == a[k]
    {
    }
    forall k | 0 <= k < |b|
      ensures (a + b)[|a| + k] == b[k]
    {
    }
  }

  lemma ExpressionBelow(expr: ExpressionCode, tokens: seq<Token>, targets: Targets, bound: nat)
    requires TargetsBelow(targets, bound)
    ensures Below(ExpressionOps(expr, tokens, targets), bound)
  {
  }

  /** Every id in the code is below what the counter ends with. */
  lemma {:induction false} NodeBelow(expr: ExpressionCode, n: Node, next: nat, targets: Targets, bound: nat)
    requires TargetsBelow(targets, bound) && LowerNode(expr, n, next, targets).Some? && LowerNode(expr, n, next, targets).value.next <= bound
    ensures Below(LowerNode(expr, n, next, targets).value.code, bound)
    decreases n, 0
  {
    hide LowerAll, LowerIf, LowerWhile;
    match n
    case Expression(tokens) => ExpressionBelow(expr, tokens, targets, bound);
    case ScopeMark(_) =>
    case Block(children) => AllBelow(expr, children, next, targets, bound);
    case IfGroup(clauses) =>
      if clauses != [] {
        IfBelow(expr, clauses, next, targets, bound);
      }
    case WhileCycle(header, body) =>
      if body != [] {
        WhileBelow(expr, header, body, next, targets, bound);
      }
  }

  lemma {:induction false} AllBelow(expr: ExpressionCode, nodes: seq<Node>, next: nat, targets: Targets, bound: nat)
    requires TargetsBelow(targets, bound) && LowerAll(expr, nodes, next, targets).Some? && LowerAll(expr, nodes, next, targets).value.next <= bound
    ensures Below(LowerAll(expr, nodes, next, targets).value.code, bound)
    decreases nodes, 0
  {
    hide LowerNode, Numbered, Below;
    if nodes != [] {
      var first := LowerNode(expr, nodes[0], next, targets).value;
      AllNumbered(expr, nodes[1..], first.next, targets);
      Counted(LowerAll(expr, nodes[1..], first.next, targets).value, first.next);
      NodeBelow(expr, nodes[0], next, targets, bound);
      AllBelow(expr, nodes[1..], first.next, targets, bound);
      BelowAppend(first.code, LowerAll(expr, nodes[1..], first.next, targets).value.code, bound);
    } else {
      NothingBelow(bound);
    }
  }

  lemma NothingBelow(bound: nat)
    ensures Below([], bound)
  {
  }

  lemma Counted(l: Lowered, next: nat)
    requires Numbered(l.code, next, l.next)
    ensures next <= l.next
  {
  }

  lemma {:induction false} BranchBelow(expr: ExpressionCode, c: Clause, next: nat, targets: Targets, bound: nat)
    requires TargetsBelow(targets, bound) && LowerBranch(expr, c, next, targets).Some? && LowerBranch(expr, c, next, targets).value.next <= bound
    ensures Below(LowerBranch(expr, c, next, targets).value.code, bound)
    decreases c, 0
  {
    hide LowerAll;
    if LineOf(c) != [] {
      ExpressionBelow(expr, LineOf(c), targets, bound);
    } else {
      AllBelow(expr, c.body, next, targets, bound);
    }
  }

  lemma ClauseBelow(condition: seq<POp>, id: nat, branch: seq<POp>, leave: seq<POp>, rest: seq<POp>, bound: nat)
    requires Below(condition, bound) && id < bound && Below(branch, bound) && Below(leave, bound) && Below(rest, bound)
    ensures Below(condition + [GotoUnless(id)] + branch + leave + [Mark(id)] + rest, bound)
  {
    var x := condition + [GotoUnless(id)];
    assert Below([GotoUnless(id)], bound) && Below([Mark(id)], bound);
    hide Below;
    BelowAppend(condition, [GotoUnless(id)], bound);
    BelowAppend(x, branch, bound);
    BelowAppend(x + branch, leave, bound);
    BelowAppend(x + branch + leave, [Mark(id)], bound);
    BelowAppend(x + branch + leave + [Mark(id)], rest, bound);
  }

  lemma PlainBelow(ops: seq<PseudoOp>, bound: nat)
    ensures Below(PlainCode(ops), bound)
  {
  }

  lemma {:induction false} ClausesBelow(expr: ExpressionCode, clauses: seq<Clause>, next: nat, targets: Targets, end: Option<nat>, bound: nat)
    requires TargetsBelow(targets, bound) && (end.Some? ==> end.value < bound)
    requires LowerClauses(expr, clauses, next, targets, end).Some? && LowerClauses(expr, clauses, next, targets, end).value.next <= bound
    ensures Below(LowerClauses(expr, clauses, next, targets, end).value.code, bound)
    decreases clauses, 0
  {
    hide LowerBranch, Numbered, Below;
    if clauses == [] {
      NothingBelow(bound);
    } else {
      var c := clauses[0];
      var start := if c.kind == Else then next else next + 1;
      var branch := LowerBranch(expr, c, start, targets).value;
      BranchNumbered(expr, c, start, targets);
      Counted(branch, start);
      ClausesNumbered(expr, clauses[1..], branch.next, targets, end);
      var rest := LowerClauses(expr, clauses[1..], branch.next, targets, end).value;
      Counted(rest, branch.next);
      BranchBelow(expr, c, start, targets, bound);
      ClausesBelow(expr, clauses[1..], branch.next, targets, end, bound);
      if c.kind == Else {
        BelowAppend(branch.code, rest.code, bound);
      } else {
        var leave := if end.Some? then [Goto(end.value)] else [];
        LeaveBelow(end, bound);
        PlainBelow(expr(SplitHeader(c.tokens).condition), bound);
        ClauseBelow(ConditionOps(expr, c.tokens), next, branch.code, leave, rest.code, bound);
      }
    }
  }

  lemma LeaveBelow(end: Option<nat>, bound: nat)
    requires end.Some? ==> end.value < bound
    ensures Below(if end.Some? then [Goto(end.value)] else [], bound)
  {
  }

  lemma {:induction false} IfBelow(expr: ExpressionCode, clauses: seq<Clause>, next: nat, targets: Targets, bound: nat)
    requires clauses != [] && TargetsBelow(targets, bound)
    requires LowerIf(expr, clauses, next, targets).Some? && LowerIf(expr, clauses, next, targets).value.next <= bound
    ensures Below(LowerIf(expr, clauses, next, targets).value.code, bound)
    decreases clauses, 1
  {
    hide LowerClauses, LowerAll, Numbered, Below, GroupOk;
    var several := |clauses| > 1;
    var start, end := if several then next + 1 else next, if several then Some(next) else None;
    var body, last := LowerClauses(expr, clauses, start, targets, end).value, clauses[|clauses| - 1];
    ClausesNumbered(expr, clauses, start, targets, end);
    Counted(body, start);
    NothingBelow(bound);
    if LineOf(last) != [] {
      AllNumbered(expr, last.body, body.next, targets);
      Counted(LowerAll(expr, last.body, body.next, targets).value, body.next);
      AllBelow(expr, last.body, body.next, targets, bound);
    }
    ClausesBelow(expr, clauses, start, targets, end, bound);
    var mark := if several then [Mark(next)] else [];
    MarkBelow(several, next, bound);
    BelowAppend(body.code, mark, bound);
    BelowAppend(body.code + mark, if LineOf(last) == [] then [] else LowerAll(expr, last.body, body.next, targets).value.code, bound);
  }

  lemma MarkBelow(several: bool, id: nat, bound: nat)
    requires several ==> id < bound
    ensures Below(if several then [Mark(id)] else [], bound)
  {
  }

  lemma CycleBelow(check: nat, end: nat, condition: seq<POp>, inner: seq<POp>, after: seq<POp>, bound: nat)
    requires check < bound && end < bound && Below(condition, bound) && Below(inner, bound) && Below(after, bound)
    ensures Below([Mark(check)] + condition + [GotoUnless(end)] + inner + [Goto(check), Mark(end)] + after, bound)
  {
    var head := [Mark(check)] + condition + [GotoUnless(end)];
    assert Below([Mark(check)], bound) && Below([GotoUnless(end)], bound) && Below([Goto(check), Mark(end)], bound);
    hide Below;
    BelowAppend([Mark(check)], condition, bound);
    BelowAppend([Mark(check)] + condition, [GotoUnless(end)], bound);
    BelowAppend(head, inner, bound);
    BelowAppend(head + inner, [Goto(check), Mark(end)], bound);
    BelowAppend(head + inner + [Goto(check), Mark(end)], after, bound);
  }

  lemma {:induction false} WhileBelow(expr: ExpressionCode, header: seq<Token>, body: seq<Node>, next: nat, targets: Targets, bound: nat)
    requires TargetsBelow(targets, bound)
    requires LowerWhile(expr, header, body, next, targets).Some? && LowerWhile(expr, header, body, next, targets).value.next <= bound
    ensures Below(LowerWhile(expr, header, body, next, targets).value.code, bound)
    decreases body, 1
  {
    hide LowerAll, Numbered, Below, ExpressionOps;
    var line, own := SplitHeader(header).statement, Cycle(next + 1, next);
    PlainBelow(expr(SplitHeader(header).condition), bound);
    NothingBelow(bound);
    if line != [] {
      AllNumbered(expr, body, next + 2, targets);
      Counted(LowerAll(expr, body, next + 2, targets).value, next + 2);
      ExpressionBelow(expr, line, own, bound);
      AllBelow(expr, body, next + 2, targets, bound);
      CycleBelow(next, next + 1, ConditionOps(expr, header), ExpressionOps(expr, line, own), LowerAll(expr, body, next + 2, targets).value.code, bound);
    } else {
      AllNumbered(expr, body, next + 2, own);
      Counted(LowerAll(expr, body, next + 2, own).value, next + 2);
      AllBelow(expr, body, next + 2, own, bound);
      CycleBelow(next, next + 1, ConditionOps(expr, header), LowerAll(expr, body, next + 2, own).value.code, [], bound);
    }
  }

  // ----- the whole program -----

  /** The linked program is what code generation makes of the lowered one. */
  ghost predicate Generated(ctx: SE.Context, l: S.Link, code: seq<POp>) {
    && SE.ContextOk(ctx) && S.LinkOk(l) && l.layout == ctx.layout && l.space == ctx.space
    && StateAt(ctx.env, code, |code|).Some?
    && |l.program| == |StateAt(ctx.env, code, |code|).value.code|
    && CC.Holds(ctx, l.program, 0, StateAt(ctx.env, code, |code|).value.code)
  }

  /** An accepted program of statements and conditions is compiled as the simulation needs it. */
  lemma LoweredIsCompiled(ctx: SE.Context, l: S.Link, expr: ExpressionCode, nodes: seq<Node>, next: nat)
    requires LowerAll(expr, nodes, next, NoCycle).Some? && AllScoped(nodes) && AllTidy(expr, nodes)
    requires LowerAll(expr, nodes, next, NoCycle).value.next <= TWO64
    requires Generated(ctx, l, LowerAll(expr, nodes, next, NoCycle).value.code)
    ensures Compiled(ctx, l, LowerAll(expr, nodes, next, NoCycle).value.code)
  {
    hide LowerAll, AllScoped, AllTidy, S.LinkOk, StateAt, Level, Closed;
    AllNumbered(expr, nodes, next, NoCycle);
    AllLevel(expr, nodes, next, NoCycle);
    AllClosedIffScoped(expr, nodes, next);
    AllBelow(expr, nodes, next, NoCycle, TWO64);
  }

  /** States of the structured program: memory between statements, or a division by zero. */
  function InMemory(mem: Memory): SE.Result {
    SE.Done(SE.EState([], mem))
  }

  lemma HaltsIsFlatRun(ctx: SE.Context, code: seq<POp>, mem: Memory, n: nat, s: SE.Result)
    requires FlatRun(ctx, code, mem, n) == Conf(|code|, s)
    ensures Halts(MeaningOf(ctx), code, InMemory(mem), s)
  {
  }

  /** The linked code halts with this memory. */
  ghost predicate MachineEnds(l: S.Link, v: V.VMState, mem: Memory)
    requires V.StateOk(l.space, v)
  {
    exists m: nat, last :: L.CodeEnds(l, v, m, last) && last.mem == mem
  }

  ghost predicate MachineFaults(l: S.Link, v: V.VMState, e: Error)
    requires V.StateOk(l.space, v)
  {
    exists m: nat :: L.CodeRun(l, v, m) == Fault(e)
  }

  /** The byte program ends with this memory exactly when the structured program finishes with it. */
  lemma EndsAsMeant(ctx: SE.Context, l: S.Link, expr: ExpressionCode, nodes: seq<Node>, next: nat, c: B.Config, mem: Memory)
    requires LowerAll(expr, nodes, next, NoCycle).Some? && AllHaveBlocks(nodes) && AllScoped(nodes) && AllTidy(expr, nodes)
    requires LowerAll(expr, nodes, next, NoCycle).value.next <= TWO64
    requires Generated(ctx, l, LowerAll(expr, nodes, next, NoCycle).value.code) && B.ConfigOk(l.space, c) && c.pc == 0
    ensures (exists n: nat, last :: L.ByteEnds(l, c, n, last) && last.mem == mem)
            <==> Finishes(MeaningOf(ctx), expr, nodes, InMemory(c.mem), InMemory(mem))
  {
    hide LowerAll, AllScoped, AllTidy, AllHaveBlocks, S.LinkOk, StateAt, B.Run, ExecAll, StructuredMeaning.Run;
    var code, m := LowerAll(expr, nodes, next, NoCycle).value.code, MeaningOf(ctx);
    LoweredIsCompiled(ctx, l, expr, nodes, next);
    ProgramMeaning(m, expr, nodes, next, InMemory(c.mem), InMemory(mem));
    if exists n: nat, last :: L.ByteEnds(l, c, n, last) && last.mem == mem {
      var n: nat, last :| L.ByteEnds(l, c, n, last) && last.mem == mem;
      var k := EndGivesHalt(ctx, l, code, c, n, last);
      HaltsIsFlatRun(ctx, code, c.mem, k, InMemory(mem));
    }
    if Halts(m, code, InMemory(c.mem), InMemory(mem)) {
      var k: nat :| StructuredMeaning.Run(m, code, Conf(0, InMemory(c.mem)), k) == Conf(|code|, InMemory(mem));
      var b, last := HaltGivesEnd(ctx, l, code, c, k, SE.EState([], mem));
    }
  }

  /** The byte program faults exactly when the structured program divides by zero, and in no other way. */
  lemma FaultsAsMeant(ctx: SE.Context, l: S.Link, expr: ExpressionCode, nodes: seq<Node>, next: nat, c: B.Config, e: Error)
    requires LowerAll(expr, nodes, next, NoCycle).Some? && AllHaveBlocks(nodes) && AllScoped(nodes) && AllTidy(expr, nodes)
    requires LowerAll(expr, nodes, next, NoCycle).value.next <= TWO64
    requires Generated(ctx, l, LowerAll(expr, nodes, next, NoCycle).value.code) && B.ConfigOk(l.space, c) && c.pc == 0
    ensures (exists n: nat :: L.ByteRun(l, c, n) == Fault(e))
            <==> e == ZeroDivision && Finishes(MeaningOf(ctx), expr, nodes, InMemory(c.mem), SE.DivisionByZero)
  {
    hide LowerAll, AllScoped, AllTidy, AllHaveBlocks, S.LinkOk, StateAt, B.Run, ExecAll, StructuredMeaning.Run, MeaningOf, BR.ForGood;
    var code, m := LowerAll(expr, nodes, next, NoCycle).value.code, MeaningOf(ctx);
    LoweredIsCompiled(ctx, l, expr, nodes, next);
    ProgramMeaning(m, expr, nodes, next, InMemory(c.mem), SE.DivisionByZero);
    if exists n: nat :: L.ByteRun(l, c, n) == Fault(e) {
      var n: nat :| L.ByteRun(l, c, n) == Fault(e);
      var k := FaultGivesFlatFault(ctx, l, code, c, n, e);
      FaultsForGood(ctx);
      var s := BR.FailedHalts(m, (r: SE.Result) => r.DivisionByZero?, expr, nodes, next, InMemory(c.mem), k);
    }
    if e == ZeroDivision && Halts(m, code, InMemory(c.mem), SE.DivisionByZero) {
      var k: nat :| StructuredMeaning.Run(m, code, Conf(0, InMemory(c.mem)), k) == Conf(|code|, SE.DivisionByZero);
      var b := FaultGivesFault(ctx, l, code, c, k);
    }
  }

  /**
   * A structured program of compiled statements and conditions, linked: started at its first operation, the machine halts with exactly the
   * memory the program, executed statement by statement, finishes with; it faults exactly when the program divides by zero; and it runs for
   * ever exactly when the program does.
   */
  lemma StructuredProgramRuns(ctx: SE.Context, l: S.Link, expr: ExpressionCode, nodes: seq<Node>, next: nat, c: B.Config, v: V.VMState)
    requires LowerAll(expr, nodes, next, NoCycle).Some? && AllHaveBlocks(nodes) && AllScoped(nodes) && AllTidy(expr, nodes)
    requires LowerAll(expr, nodes, next, NoCycle).value.next <= TWO64
    requires Generated(ctx, l, LowerAll(expr, nodes, next, NoCycle).value.code) && S.Related(l, c, v) && c.pc == 0
    ensures V.StateOk(l.space, v)
    ensures forall mem :: MachineEnds(l, v, mem) <==> Finishes(MeaningOf(ctx), expr, nodes, InMemory(v.mem), InMemory(mem))
    ensures forall e :: MachineFaults(l, v, e)
              <==> e == ZeroDivision && Finishes(MeaningOf(ctx), expr, nodes, InMemory(v.mem), SE.DivisionByZero)
  {
    hide LowerAll, AllScoped, AllTidy, AllHaveBlocks, S.LinkOk, StateAt, B.Run, V.Run, Finishes, L.ByteEnds, L.CodeEnds, S.Related;
    SameMemory(l, c, v);
    forall mem
      ensures MachineEnds(l, v, mem) <==> Finishes(MeaningOf(ctx), expr, nodes, InMemory(v.mem), InMemory(mem))
    {
      EndsAsMeant(ctx, l, expr, nodes, next, c, mem);
      BothEnd(l, c, v, mem);
    }
    forall e
      ensures MachineFaults(l, v, e)
              <==> e == ZeroDivision && Finishes(MeaningOf(ctx), expr, nodes, InMemory(v.mem), SE.DivisionByZero)
    {
      FaultsAsMeant(ctx, l, expr, nodes, next, c, e);
      BothFault(l, c, v, e);
    }
  }

  lemma BothFault(l: S.Link, c: B.Config, v: V.VMState, e: Error)
    requires S.LinkOk(l) && S.Related(l, c, v)
    ensures B.ConfigOk(l.space, c) && V.StateOk(l.space, v)
    ensures (exists n: nat :: L.ByteRun(l, c, n) == Fault(e)) <==> MachineFaults(l, v, e)
  {
    hide S.LinkOk, B.Run, V.Run, L.ByteEnds, L.CodeEnds, S.Related;
    L.LinkedCodeIsEquivalent(l, c, v);
  }

  lemma SameMemory(l: S.Link, c: B.Config, v: V.VMState)
    requires S.Related(l, c, v)
    ensures v.mem == c.mem && B.ConfigOk(l.space, c) && V.StateOk(l.space, v)
  {
  }

  lemma BothEnd(l: S.Link, c: B.Config, v: V.VMState, mem: Memory)
    requires S.LinkOk(l) && S.Related(l, c, v)
    ensures B.ConfigOk(l.space, c) && V.StateOk(l.space, v)
    ensures (exists n: nat, last :: L.ByteEnds(l, c, n, last) && last.mem == mem) <==> MachineEnds(l, v, mem)
  {
    hide S.LinkOk, B.Run, V.Run, L.ByteEnds, L.CodeEnds, S.Related;
    SameMemory(l, c, v);
    L.LinkedCodeIsEquivalent(l, c, v);
    if exists n: nat, last :: L.ByteEnds(l, c, n, last) && last.mem == mem {
      var n: nat, last :| L.ByteEnds(l, c, n, last) && last.mem == mem;
      var m: nat, last' :| L.CodeEnds(l, v, m, last');
      SameMemory(l, last, last');
    }
    if MachineEnds(l, v, mem) {
      var m: nat, last' :| L.CodeEnds(l, v, m, last') && last'.mem == mem;
      var n: nat, last :| L.ByteEnds(l, c, n, last);
      SameMemory(l, last, last');
    }
  }
}
