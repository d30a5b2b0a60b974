/** The labels-and-jumps code of any statement does exactly what the statement means. */
module LoweringCorrect {
  import opened ByteCode
  import opened Pseudo
  import opened Syntax
  import opened Tokens
  import opened LoweringSpec
  import opened BreakScoping
  import opened StructuredMeaning
  import opened FirstBranch

  // ----- labels are unique -----

  /** The labels are distinct, and are the numbers between the counter's old and new values. */
  ghost predicate Numbered(code: seq<POp>, next: nat, next': nat) {
    Unique(code) && next <= next' && forall id :: id in Ids(code) <==> next <= id < next'
  }

  lemma PlainHasNoLabel(ops: seq<PseudoOp>)
    ensures Ids(PlainCode(ops)) == {} && Unique(PlainCode(ops))
  {
  }

  lemma ExpressionHasNoLabel(expr: ExpressionCode, tokens: seq<Token>, targets: Targets)
    ensures Ids(ExpressionOps(expr, tokens, targets)) == {} && Unique(ExpressionOps(expr, tokens, targets))
  {
  }

  lemma NoLabels()
    ensures Ids([]) == {} && Unique([])
  {
  }

  lemma OneLabel(id: nat)
    ensures Ids([Mark(id)]) == {id} && Unique([Mark(id)])
  {
    assert [Mark(id)][0].Mark?;
  }

  lemma {:induction false} NodeNumbered(expr: ExpressionCode, n: Node, next: nat, targets: Targets)
    requires LowerNode(expr, n, next, targets).Some?
    ensures var l := LowerNode(expr, n, next, targets).value; Numbered(l.code, next, l.next)
    decreases n, 0
  {
    match n
    case Expression(tokens) => ExpressionHasNoLabel(expr, tokens, targets);
    case ScopeMark(_) =>
    case Block(children) => AllNumbered(expr, children, next, targets);
    case IfGroup(clauses) =>
      if clauses != [] {
        IfNumbered(expr, clauses, next, targets);
      }
    case WhileCycle(header, body) =>
      if body != [] {
        WhileNumbered(expr, header, body, next, targets);
      }
  }

  lemma {:induction false} AllNumbered(expr: ExpressionCode, nodes: seq<Node>, next: nat, targets: Targets)
    requires LowerAll(expr, nodes, next, targets).Some?
    ensures var l := LowerAll(expr, nodes, next, targets).value; Numbered(l.code, next, l.next)
    decreases nodes, 0
  {
    if nodes != [] {
      var first := LowerNode(expr, nodes[0], next, targets).value;
      NodeNumbered(expr, nodes[0], next, targets);
      AllNumbered(expr, nodes[1..], first.next, targets);
      IdsAppend(first.code, LowerAll(expr, nodes[1..], first.next, targets).value.code);
    }
  }

  lemma {:induction false} BranchNumbered(expr: ExpressionCode, c: Clause, next: nat, targets: Targets)
    requires LowerBranch(expr, c, next, targets).Some?
    ensures var l := LowerBranch(expr, c, next, targets).value; Numbered(l.code, next, l.next)
    decreases c, 0
  {
    if LineOf(c) != [] {
      ExpressionHasNoLabel(expr, LineOf(c), targets);
    } else {
      AllNumbered(expr, c.body, next, targets);
    }
  }

  lemma ClauseLabels(condition: seq<POp>, id: nat, branch: seq<POp>, leave: seq<POp>, rest: seq<POp>)
    requires Ids(condition) == Ids(leave) == {} && Unique(condition) && Unique(leave) && Unique(branch) && Unique(rest)
    requires id !in Ids(branch) && Ids(branch) + {id} !! Ids(rest)
    ensures var code := condition + [GotoUnless(id)] + branch + leave + [Mark(id)] + rest;
            Unique(code) && Ids(code) == Ids(branch) + {id} + Ids(rest)
  {
    var jump := [GotoUnless(id)];
    assert Ids(jump) == {} && Unique(jump);
    OneLabel(id);
    IdsAppend(condition, jump);
    IdsAppend(condition + jump, branch);
    IdsAppend(condition + jump + branch, leave);
    IdsAppend(condition + jump + branch + leave, [Mark(id)]);
    IdsAppend(condition + jump + branch + leave + [Mark(id)], rest);
  }

  lemma {:induction false} ClausesNumbered(expr: ExpressionCode, clauses: seq<Clause>, next: nat, targets: Targets, end: Option<nat>)
    requires LowerClauses(expr, clauses, next, targets, end).Some?
    ensures var l := LowerClauses(expr, clauses, next, targets, end).value; Numbered(l.code, next, l.next)
    decreases clauses, 0
  {
    if clauses != [] {
      var c := clauses[0];
      var start := if c.kind == Else then next else next + 1;
      BranchNumbered(expr, c, start, targets);
      var branch := LowerBranch(expr, c, start, targets).value;
      ClausesNumbered(expr, clauses[1..], branch.next, targets, end);
      var rest := LowerClauses(expr, clauses[1..], branch.next, targets, end).value;
      if c.kind == Else {
        IdsAppend(branch.code, rest.code);
      } else {
        PlainHasNoLabel(expr(SplitHeader(c.tokens).condition));
        var leave := if end.Some? then [Goto(end.value)] else [];
        ClauseLabels(ConditionOps(expr, c.tokens), next, branch.code, leave, rest.code);
      }
    }
  }

  lemma {:induction false} IfNumbered(expr: ExpressionCode, clauses: seq<Clause>, next: nat, targets: Targets)
    requires clauses != [] && LowerIf(expr, clauses, next, targets).Some?
    ensures var l := LowerIf(expr, clauses, next, targets).value; Numbered(l.code, next, l.next)
    decreases clauses, 1
  {
    hide LowerClauses, LowerAll, GroupOk, LineOf, Ids, Unique;
    var several := |clauses| > 1;
    var end := if several then Some(next) else None;
    var start := if several then next + 1 else next;
    ClausesNumbered(expr, clauses, start, targets, end);
    var body := LowerClauses(expr, clauses, start, targets, end).value;
    var last := clauses[|clauses| - 1];
    var mark := if several then [Mark(next)] else [];
    OneLabel(next);
    NoLabels();
    if LineOf(last) != [] {
      AllNumbered(expr, last.body, body.next, targets);
    }
    var after := if LineOf(last) == [] then [] else LowerAll(expr, last.body, body.next, targets).value.code;
    IdsAppend(body.code, mark);
    IdsAppend(body.code + mark, after);
  }

  lemma WhileLabels(check: nat, end: nat, condition: seq<POp>, inner: seq<POp>, after: seq<POp>)
    requires Ids(condition) == {} && Unique(condition) && Unique(inner) && Unique(after) && check != end
    requires check !in Ids(inner) && end !in Ids(inner) && Ids(inner) + {check, end} !! Ids(after)
    ensures var code := [Mark(check)] + condition + [GotoUnless(end)] + inner + [Goto(check), Mark(end)] + after;
            Unique(code) && Ids(code) == Ids(inner) + {check, end} + Ids(after)
  {
    var head, tail := [Mark(check)] + condition + [GotoUnless(end)], [Goto(check), Mark(end)];
    assert Ids([GotoUnless(end)]) == {} && Unique([GotoUnless(end)]);
    assert Ids([Goto(check)]) == {} && Unique([Goto(check)]);
    OneLabel(check);
    OneLabel(end);
    IdsAppend([Goto(check)], [Mark(end)]);
    assert tail == [Goto(check)] + [Mark(end)];
    IdsAppend([Mark(check)], condition);
    IdsAppend([Mark(check)] + condition, [GotoUnless(end)]);
    IdsAppend(head, inner);
    IdsAppend(head + inner, tail);
    IdsAppend(head + inner + tail, after);
  }

  lemma {:induction false} WhileNumbered(expr: ExpressionCode, header: seq<Token>, body: seq<Node>, next: nat, targets: Targets)
    requires LowerWhile(expr, header, body, next, targets).Some?
    ensures var l := LowerWhile(expr, header, body, next, targets).value; Numbered(l.code, next, l.next)
    decreases body, 1
  {
    hide LowerAll, ExpressionOps, Ids, Unique, PlainCode;
    var line, own := SplitHeader(header).statement, Cycle(next + 1, next);
    var inner := if line != [] then Lowered(ExpressionOps(expr, line, own), next + 2) else LowerAll(expr, body, next + 2, own).value;
    NoLabels();
    if line != [] {
      ExpressionHasNoLabel(expr, line, own);
      AllNumbered(expr, body, inner.next, targets);
    } else {
      AllNumbered(expr, body, next + 2, own);
    }
    var after := if line != [] then LowerAll(expr, body, inner.next, targets).value.code else [];
    PlainHasNoLabel(expr(SplitHeader(header).condition));
    WhileLabels(next, next + 1, ConditionOps(expr, header), inner.code, after);
  }

  // ----- one statement -----

  /** Every cycle that is translated has a block: one without emits nothing. Blocks that the translation passes over do not count. */
  predicate HasBlocks(n: Node)
    decreases n, 0
  {
    match n
    case Expression(_) => true
    case ScopeMark(_) => true
    case Block(children) => AllHaveBlocks(children)
    case IfGroup(clauses) => clauses == [] || IfHasBlocks(clauses)
    case WhileCycle(_, body) => body != [] && AllHaveBlocks(body)
  }

  predicate AllHaveBlocks(nodes: seq<Node>)
    decreases nodes, 0
  {
    nodes == [] || (HasBlocks(nodes[0]) && AllHaveBlocks(nodes[1..]))
  }

  predicate BranchHasBlocks(c: Clause)
    decreases c, 0
  {
    LineOf(c) != [] || AllHaveBlocks(c.body)
  }

  predicate ClausesHaveBlocks(clauses: seq<Clause>)
    decreases clauses, 0
  {
    clauses == [] || (BranchHasBlocks(clauses[0]) && ClausesHaveBlocks(clauses[1..]))
  }

  predicate IfHasBlocks(clauses: seq<Clause>)
    requires clauses != []
    decreases clauses, 1
  {
    var last := clauses[|clauses| - 1];
    ClausesHaveBlocks(clauses) && (LineOf(last) == [] || AllHaveBlocks(last.body))
  }

  /** The labels a statement may jump to are declared. */
  predicate TargetsOk(code: seq<POp>, targets: Targets) {
    targets.Cycle? ==> Find(code, targets.end) < |code| && Find(code, targets.check) < |code|
  }

  /** The flat run from p to q matches a structured outcome; an unfinished one takes at least as many steps as it had fuel. */
  ghost predicate Matches<S>(m: Meaning<S>, code: seq<POp>, p: nat, q: nat, targets: Targets, s: S, o: Outcome<S>, n: nat,
                             fuel: nat)
  {
    match o
    case Normal(s') => Reaches(m, code, Conf(p, s), n, Conf(q, s'))
    case Broke(s') => targets.Cycle? ==> Reaches(m, code, Conf(p, s), n, Conf(Find(code, targets.end), s'))
    case Continued(s') => targets.Cycle? ==> Reaches(m, code, Conf(p, s), n, Conf(Find(code, targets.check), s'))
    case Unfinished => n >= fuel && Run(m, code, Conf(p, s), n).pc < |code|
  }

  /** A run to an intermediate point, then a matching rest. */
  lemma MatchesAfter<S>(m: Meaning<S>, code: seq<POp>, p: nat, s: S, a: nat, p1: nat, s1: S, q: nat, targets: Targets,
                        o: Outcome<S>, n: nat, fuel: nat)
    requires Reaches(m, code, Conf(p, s), a, Conf(p1, s1)) && Matches(m, code, p1, q, targets, s1, o, n, fuel)
    ensures Matches(m, code, p, q, targets, s, o, a + n, fuel + if o.Unfinished? && a > 0 then 1 else 0)
    ensures Matches(m, code, p, q, targets, s, o, a + n, fuel)
  {
    RunAdd(m, code, Conf(p, s), a, n);
  }

  lemma ExpressionMatches<S>(m: Meaning<S>, expr: ExpressionCode, code: seq<POp>, p: nat, tokens: seq<Token>, targets: Targets,
                             s: S, fuel: nat)
    returns (n: nat)
    requires At(code, p, ExpressionOps(expr, tokens, targets))
    ensures Matches(m, code, p, p + |ExpressionOps(expr, tokens, targets)|, targets, s, ExecExpression(m, expr, tokens, s), n, fuel)
  {
    if IsBreak(tokens) || IsContinue(tokens) {
      n := 1;
      AtOne(code, p, Flow(IsBreak(tokens), targets));
      ReachesOne(m, code, Conf(p, s));
    } else {
      n := |expr(tokens)|;
      PlainRuns(m, code, p, expr(tokens), s);
    }
  }

  lemma MarkMatches<S>(m: Meaning<S>, code: seq<POp>, p: nat, opens: bool, targets: Targets, s: S, fuel: nat) returns (n: nat)
    requires At(code, p, [Plain(Op(if opens then PushFrame else PopFrame))])
    ensures Matches(m, code, p, p + 1, targets, s, Normal(m.act(Op(if opens then PushFrame else PopFrame), s)), n, fuel)
  {
    n := 1;
    AtOne(code, p, Plain(Op(if opens then PushFrame else PopFrame)));
    ReachesOne(m, code, Conf(p, s));
  }

  lemma {:induction false} NodeMatches<S>(m: Meaning<S>, expr: ExpressionCode, code: seq<POp>, p: nat, node: Node, next: nat,
                                          targets: Targets, s: S, fuel: nat)
    returns (n: nat)
    requires Unique(code) && TargetsOk(code, targets) && HasBlocks(node)
    requires LowerNode(expr, node, next, targets).Some? && At(code, p, LowerNode(expr, node, next, targets).value.code)
    ensures Matches(m, code, p, p + |LowerNode(expr, node, next, targets).value.code|, targets, s,
                    ExecNode(m, expr, node, s, fuel), n, fuel)
    decreases fuel, node, 0
  {
    hide Reaches, Find, At, LowerAll, LowerIf, LowerWhile, ExecAll, ExecIf, ExecWhile, ExpressionOps, ExecExpression;
    match node {
      case Expression(tokens) => n := ExpressionMatches(m, expr, code, p, tokens, targets, s, fuel);
      case ScopeMark(opens) => n := MarkMatches(m, code, p, opens, targets, s, fuel);
      case Block(children) => n := AllMatches(m, expr, code, p, children, next, targets, s, fuel);
      case IfGroup(clauses) =>
        if clauses == [] {
          n := 0;
          NoSteps(m, code, Conf(p, s));
        } else {
          n := IfMatches(m, expr, code, p, clauses, next, targets, s, fuel);
        }
      case WhileCycle(header, body) => n := WhileMatches(m, expr, code, p, header, body, next, targets, s, fuel);
    }
  }

  lemma {:induction false} AllMatches<S>(m: Meaning<S>, expr: ExpressionCode, code: seq<POp>, p: nat, nodes: seq<Node>, next: nat,
                                         targets: Targets, s: S, fuel: nat)
    returns (n: nat)
    requires Unique(code) && TargetsOk(code, targets) && AllHaveBlocks(nodes)
    requires LowerAll(expr, nodes, next, targets).Some? && At(code, p, LowerAll(expr, nodes, next, targets).value.code)
    ensures Matches(m, code, p, p + |LowerAll(expr, nodes, next, targets).value.code|, targets, s,
                    ExecAll(m, expr, nodes, s, fuel), n, fuel)
    decreases fuel, nodes, 0
  {
    hide Reaches, Find, At, LowerNode, ExecNode;
    if nodes == [] {
      n := 0;
      NoSteps(m, code, Conf(p, s));
    } else {
      var first := LowerNode(expr, nodes[0], next, targets).value;
      var rest := LowerAll(expr, nodes[1..], first.next, targets).value;
      AtSplit(code, p, first.code, rest.code);
      var o := ExecNode(m, expr, nodes[0], s, fuel);
      n := NodeMatches(m, expr, code, p, nodes[0], next, targets, s, fuel);
      if o.Normal? {
        var q := p + |first.code|;
        var k := AllMatches(m, expr, code, q, nodes[1..], first.next, targets, o.s, fuel);
        MatchesAfter(m, code, p, s, n, q, o.s, q + |rest.code|, targets, ExecAll(m, expr, nodes[1..], o.s, fuel), k, fuel);
        n := n + k;
      }
    }
  }

  lemma {:induction false} BranchMatches<S>(m: Meaning<S>, expr: ExpressionCode, code: seq<POp>, p: nat, c: Clause, next: nat,
                                            targets: Targets, s: S, fuel: nat)
    returns (n: nat)
    requires Unique(code) && TargetsOk(code, targets) && BranchHasBlocks(c)
    requires LowerBranch(expr, c, next, targets).Some? && At(code, p, LowerBranch(expr, c, next, targets).value.code)
    ensures Matches(m, code, p, p + |LowerBranch(expr, c, next, targets).value.code|, targets, s,
                    ExecBranch(m, expr, c, s, fuel), n, fuel)
    decreases fuel, c, 0
  {
    if LineOf(c) != [] {
      n := ExpressionMatches(m, expr, code, p, LineOf(c), targets, s, fuel);
    } else {
      n := AllMatches(m, expr, code, p, c.body, next, targets, s, fuel);
    }
  }

  /** A condition and the jump that leaves when it fails. */
  lemma ConditionRuns<S>(m: Meaning<S>, expr: ExpressionCode, code: seq<POp>, p: nat, header: seq<Token>, away: nat, s: S)
    returns (n: nat)
    requires header != [] && At(code, p, ConditionOps(expr, header)) && At(code, p + |ConditionOps(expr, header)|, [GotoUnless(away)])
    ensures n > 0
    ensures var s1, q := Ask(m, expr, header, s), p + |ConditionOps(expr, header)|;
            Reaches(m, code, Conf(p, s), n, Conf(if m.test(s1) then q + 1 else Find(code, away), m.drop(s1)))
  {
    var ops := expr(SplitHeader(header).condition);
    var s1, q := Ask(m, expr, header, s), p + |ops|;
    PlainRuns(m, code, p, ops, s);
    AtOne(code, q, GotoUnless(away));
    ReachesOne(m, code, Conf(q, s1));
    ReachesThen(m, code, Conf(p, s), |ops|, Conf(q, s1), 1, Step(m, code, Conf(q, s1)));
    n := |ops| + 1;
  }

  /** Passing a label takes one step. */
  lemma PassMark<S>(m: Meaning<S>, code: seq<POp>, p: nat, s: S, n: nat, q: nat, s': S)
    requires Reaches(m, code, Conf(p, s), n, Conf(q, s')) && q < |code| && code[q].Mark?
    ensures Reaches(m, code, Conf(p, s), n + 1, Conf(q + 1, s'))
  {
    ReachesOne(m, code, Conf(q, s'));
    ReachesThen(m, code, Conf(p, s), n, Conf(q, s'), 1, Conf(q + 1, s'));
  }

  lemma PassGoto<S>(m: Meaning<S>, code: seq<POp>, p: nat, s: S, n: nat, q: nat, s': S, id: nat)
    requires Reaches(m, code, Conf(p, s), n, Conf(q, s')) && q < |code| && code[q] == Goto(id)
    ensures Reaches(m, code, Conf(p, s), n + 1, Conf(Find(code, id), s'))
  {
    ReachesOne(m, code, Conf(q, s'));
    ReachesThen(m, code, Conf(p, s), n, Conf(q, s'), 1, Conf(Find(code, id), s'));
  }

  /** Where the parts of a conditional clause stand. */
  lemma ClauseParts(code: seq<POp>, p: nat, condition: seq<POp>, id: nat, branch: seq<POp>, leave: seq<POp>, rest: seq<POp>)
    requires Unique(code) && At(code, p, condition + [GotoUnless(id)] + branch + leave + [Mark(id)] + rest)
    ensures At(code, p, condition) && At(code, p + |condition|, [GotoUnless(id)])
    ensures var b := p + |condition| + 1;
            && At(code, b, branch) && At(code, b + |branch|, leave)
            && At(code, b + |branch| + |leave| + 1, rest)
            && b + |branch| + |leave| < |code| && code[b + |branch| + |leave|] == Mark(id)
            && Find(code, id) == b + |branch| + |leave|
  {
    var x1 := condition + [GotoUnless(id)];
    AtSplit(code, p, x1 + branch + leave + [Mark(id)], rest);
    AtSplit(code, p, x1 + branch + leave, [Mark(id)]);
    AtSplit(code, p, x1 + branch, leave);
    AtSplit(code, p, x1, branch);
    AtSplit(code, p, condition, [GotoUnless(id)]);
    var q := p + |condition| + 1 + |branch| + |leave|;
    AtOne(code, q, Mark(id));
    MarkFound(code, q, id);
  }

  lemma {:induction false} ClausesMatches<S>(m: Meaning<S>, expr: ExpressionCode, code: seq<POp>, p: nat, clauses: seq<Clause>,
                                             next: nat, targets: Targets, end: Option<nat>, s: S, fuel: nat)
    returns (n: nat)
    requires Unique(code) && TargetsOk(code, targets) && ClausesHaveBlocks(clauses)
    requires LowerClauses(expr, clauses, next, targets, end).Some?
    requires At(code, p, LowerClauses(expr, clauses, next, targets, end).value.code)
    requires match end
             case Some(id) => Find(code, id) == p + |LowerClauses(expr, clauses, next, targets, end).value.code|
             case None => |clauses| <= 1
    ensures Matches(m, code, p, p + |LowerClauses(expr, clauses, next, targets, end).value.code|, targets, s,
                    ExecClauses(m, expr, clauses, s, fuel), n, fuel)
    decreases fuel, clauses, 1
  {
    if clauses == [] {
      n := 0;
    } else if clauses[0].kind == Else {
      n := ElseMatches(m, expr, code, p, clauses, next, targets, end, s, fuel);
    } else {
      n := ConditionalMatches(m, expr, code, p, clauses, next, targets, end, s, fuel);
    }
  }

  lemma {:induction false} ElseMatches<S>(m: Meaning<S>, expr: ExpressionCode, code: seq<POp>, p: nat, clauses: seq<Clause>,
                                          next: nat, targets: Targets, end: Option<nat>, s: S, fuel: nat)
    returns (n: nat)
    requires Unique(code) && TargetsOk(code, targets) && ClausesHaveBlocks(clauses)
    requires clauses != [] && clauses[0].kind == Else && LowerClauses(expr, clauses, next, targets, end).Some?
    requires At(code, p, LowerClauses(expr, clauses, next, targets, end).value.code)
    requires match end
             case Some(id) => Find(code, id) == p + |LowerClauses(expr, clauses, next, targets, end).value.code|
             case None => |clauses| <= 1
    ensures Matches(m, code, p, p + |LowerClauses(expr, clauses, next, targets, end).value.code|, targets, s,
                    ExecClauses(m, expr, clauses, s, fuel), n, fuel)
    decreases fuel, clauses, 0
  {
    hide LowerBranch, ExecBranch, Reaches, Find, At;
    var c := clauses[0];
    var branch := LowerBranch(expr, c, next, targets).value;
    var rest := LowerClauses(expr, clauses[1..], branch.next, targets, end).value;
    AtSplit(code, p, branch.code, rest.code);
    var o := ExecBranch(m, expr, c, s, fuel);
    n := BranchMatches(m, expr, code, p, c, next, targets, s, fuel);
    if o.Normal? {
      var q := p + |branch.code|;
      var k := ClausesMatches(m, expr, code, q, clauses[1..], branch.next, targets, end, o.s, fuel);
      MatchesAfter(m, code, p, s, n, q, o.s, q + |rest.code|, targets, ExecClauses(m, expr, clauses[1..], o.s, fuel), k, fuel);
      n := n + k;
    }
  }

  /** Behind a branch that has come to its end, the group is left. */
  lemma LeaveMatches<S>(m: Meaning<S>, code: seq<POp>, p: nat, s: S, n: nat, out: nat, o: Outcome<S>, end: Option<nat>, q: nat,
                        targets: Targets, fuel: nat)
    returns (n': nat)
    requires Matches(m, code, p, out, targets, s, o, n, fuel) && out < |code|
    requires if end.Some? then code[out] == Goto(end.value) && Find(code, end.value) == q else code[out].Mark? && q == out + 1
    ensures Matches(m, code, p, q, targets, s, o, n', fuel)
  {
    hide Reaches, Find;
    n' := n;
    if o.Normal? {
      if end.Some? {
        PassGoto(m, code, p, s, n, out, o.s, end.value);
      } else {
        PassMark(m, code, p, s, n, out, o.s);
      }
      n' := n + 1;
    }
  }

  lemma ConditionalCode(expr: ExpressionCode, clauses: seq<Clause>, next: nat, targets: Targets, end: Option<nat>)
    requires clauses != [] && clauses[0].kind != Else && LowerClauses(expr, clauses, next, targets, end).Some?
    ensures var c := clauses[0];
            && c.tokens != [] && LowerBranch(expr, c, next + 1, targets).Some?
            && var branch := LowerBranch(expr, c, next + 1, targets).value;
            && LowerClauses(expr, clauses[1..], branch.next, targets, end).Some?
            && LowerClauses(expr, clauses, next, targets, end).value.code
               == ConditionOps(expr, c.tokens) + [GotoUnless(next)] + branch.code + (if end.Some? then [Goto(end.value)] else []) + [Mark(next)]
                  + LowerClauses(expr, clauses[1..], branch.next, targets, end).value.code
            && (clauses[1..] == [] ==> LowerClauses(expr, clauses[1..], branch.next, targets, end).value.code == [])
  {
    hide LowerBranch, ConditionOps, LineOf;
  }

  lemma ConditionalExec<S>(m: Meaning<S>, expr: ExpressionCode, clauses: seq<Clause>, s: S, fuel: nat)
    requires clauses != [] && clauses[0].kind != Else
    ensures var s1 := Ask(m, expr, clauses[0].tokens, s);
            ExecClauses(m, expr, clauses, s, fuel)
            == if m.test(s1) then ExecBranch(m, expr, clauses[0], m.drop(s1), fuel) else ExecClauses(m, expr, clauses[1..], m.drop(s1), fuel)
  {
    hide ExecBranch, Ask;
  }

  lemma {:induction false} ConditionalMatches<S>(m: Meaning<S>, expr: ExpressionCode, code: seq<POp>, p: nat, clauses: seq<Clause>,
                                                 next: nat, targets: Targets, end: Option<nat>, s: S, fuel: nat)
    returns (n: nat)
    requires Unique(code) && TargetsOk(code, targets) && ClausesHaveBlocks(clauses)
    requires clauses != [] && clauses[0].kind != Else && LowerClauses(expr, clauses, next, targets, end).Some?
    requires At(code, p, LowerClauses(expr, clauses, next, targets, end).value.code)
    requires match end
             case Some(id) => Find(code, id) == p + |LowerClauses(expr, clauses, next, targets, end).value.code|
             case None => |clauses| <= 1
    ensures Matches(m, code, p, p + |LowerClauses(expr, clauses, next, targets, end).value.code|, targets, s,
                    ExecClauses(m, expr, clauses, s, fuel), n, fuel)
    decreases fuel, clauses, 0
  {
    hide LowerBranch, ExecBranch, Reaches, Find, At, ConditionOps, LineOf, Unique, TargetsOk, BranchHasBlocks, Ask, LowerClauses, ExecClauses;
    ConditionalCode(expr, clauses, next, targets, end);
    ConditionalExec(m, expr, clauses, s, fuel);
    var c := clauses[0];
    var condition, branch := ConditionOps(expr, c.tokens), LowerBranch(expr, c, next + 1, targets).value;
    var rest := LowerClauses(expr, clauses[1..], branch.next, targets, end).value;
    var leave := if end.Some? then [Goto(end.value)] else [];
    var l := LowerClauses(expr, clauses, next, targets, end).value;
    ClauseParts(code, p, condition, next, branch.code, leave, rest.code);
    var k := ConditionRuns(m, expr, code, p, c.tokens, next, s);
    var s1 := Ask(m, expr, c.tokens, s);
    var s2, b := m.drop(s1), p + |condition| + 1;
    var out, mark, q := b + |branch.code|, b + |branch.code| + |leave|, p + |l.code|;
    if m.test(s1) {
      var o := ExecBranch(m, expr, c, s2, fuel);
      var j := BranchMatches(m, expr, code, b, c, next + 1, targets, s2, fuel);
      MatchesAfter(m, code, p, s, k, b, s2, out, targets, o, j, fuel);
      if end.Some? {
        AtOne(code, out, Goto(end.value));
      } else {
        assert clauses[1..] == [];
      }
      n := LeaveMatches(m, code, p, s, k + j, out, o, end, q, targets, fuel);
    } else {
      PassMark(m, code, p, s, k, mark, s2);
      var j := ClausesMatches(m, expr, code, mark + 1, clauses[1..], branch.next, targets, end, s2, fuel);
      MatchesAfter(m, code, p, s, k + 1, mark + 1, s2, q, targets, ExecClauses(m, expr, clauses[1..], s2, fuel), j, fuel);
      n := k + 1 + j;
    }
  }

  lemma {:induction false} IfMatches<S>(m: Meaning<S>, expr: ExpressionCode, code: seq<POp>, p: nat, clauses: seq<Clause>,
                                        next: nat, targets: Targets, s: S, fuel: nat)
    returns (n: nat)
    requires clauses != [] && Unique(code) && TargetsOk(code, targets) && IfHasBlocks(clauses)
    requires LowerIf(expr, clauses, next, targets).Some?
    requires At(code, p, LowerIf(expr, clauses, next, targets).value.code)
    ensures Matches(m, code, p, p + |LowerIf(expr, clauses, next, targets).value.code|, targets, s,
                    ExecIf(m, expr, clauses, s, fuel), n, fuel)
    decreases fuel, clauses, 2
  {
    hide LowerClauses, LowerAll, ExecClauses, ExecAll, Reaches, Find, At, GroupOk;
    var several := |clauses| > 1;
    var end := if several then Some(next) else None;
    var start := if several then next + 1 else next;
    var body := LowerClauses(expr, clauses, start, targets, end).value;
    var last := clauses[|clauses| - 1];
    var mark := if several then [Mark(next)] else [];
    var after := if LineOf(last) == [] then Lowered([], body.next) else LowerAll(expr, last.body, body.next, targets).value;
    AtSplit(code, p, body.code + mark, after.code);
    AtSplit(code, p, body.code, mark);
    var q := p + |body.code|;
    if several {
      AtOne(code, q, Mark(next));
      MarkFound(code, q, next);
    }
    var o := ExecClauses(m, expr, clauses, s, fuel);
    n := ClausesMatches(m, expr, code, p, clauses, start, targets, end, s, fuel);
    if o.Normal? {
      var r := q + |mark|;
      if several {
        PassMark(m, code, p, s, n, q, o.s);
        n := n + 1;
      }
      if LineOf(last) != [] {
        var k := AllMatches(m, expr, code, r, last.body, body.next, targets, o.s, fuel);
        MatchesAfter(m, code, p, s, n, r, o.s, r + |after.code|, targets, ExecAll(m, expr, last.body, o.s, fuel), k, fuel);
        n := n + k;
      }
    }
  }

  // ----- cycles -----

  /** Where the parts of a cycle stand. */
  ghost predicate CycleAt(code: seq<POp>, p: nat, check: nat, condition: seq<POp>, inner: seq<POp>) {
    var b := p + 1 + |condition| + 1;
    var e := b + |inner| + 1;
    && At(code, p + 1, condition) && At(code, p + 1 + |condition|, [GotoUnless(check + 1)]) && At(code, b, inner)
    && e < |code| && code[p] == Mark(check) && code[e - 1] == Goto(check) && code[e] == Mark(check + 1)
    && Find(code, check) == p && Find(code, check + 1) == e
  }

  lemma CycleParts(code: seq<POp>, p: nat, check: nat, condition: seq<POp>, inner: seq<POp>, after: seq<POp>)
    requires Unique(code)
    requires At(code, p, [Mark(check)] + condition + [GotoUnless(check + 1)] + inner + [Goto(check), Mark(check + 1)] + after)
    ensures CycleAt(code, p, check, condition, inner) && At(code, p + 1 + |condition| + 1 + |inner| + 2, after)
  {
    var x := [Mark(check)] + condition + [GotoUnless(check + 1)];
    var tail := [Goto(check), Mark(check + 1)];
    AtSplit(code, p, x + inner + tail, after);
    AtSplit(code, p, x + inner, tail);
    AtSplit(code, p, x, inner);
    AtSplit(code, p, [Mark(check)] + condition, [GotoUnless(check + 1)]);
    AtSplit(code, p, [Mark(check)], condition);
    AtOne(code, p, Mark(check));
    MarkFound(code, p, check);
    var g := p + |x| + |inner|;
    assert code[g] == tail[0] && code[g + 1] == tail[1];
    MarkFound(code, g + 1, check + 1);
  }

  /** The statement of a cycle, with the cycle's own targets. */
  lemma {:induction false} InnerMatches<S>(m: Meaning<S>, expr: ExpressionCode, code: seq<POp>, p: nat, header: seq<Token>,
                                           body: seq<Node>, next: nat, own: Targets, inner: Lowered, s: S, fuel: nat)
    returns (n: nat)
    requires Unique(code) && TargetsOk(code, own) && AllHaveBlocks(body) && header != [] && At(code, p, inner.code)
    requires var line := StatementTokens(header);
             Some(inner) == if line != [] then Some(Lowered(ExpressionOps(expr, line, own), next)) else LowerAll(expr, body, next, own)
    ensures var line := StatementTokens(header);
            Matches(m, code, p, p + |inner.code|, own, s,
                    if line != [] then ExecExpression(m, expr, line, s) else ExecAll(m, expr, body, s, fuel), n, fuel)
    decreases fuel, body, 1
  {
    var line := StatementTokens(header);
    if line != [] {
      n := ExpressionMatches(m, expr, code, p, line, own, s, fuel);
    } else {
      n := AllMatches(m, expr, code, p, body, next, own, s, fuel);
    }
  }

  lemma {:induction false} LoopMatches<S>(m: Meaning<S>, expr: ExpressionCode, code: seq<POp>, p: nat, header: seq<Token>,
                                          body: seq<Node>, check: nat, inner: Lowered, s: S, fuel: nat)
    returns (n: nat)
    requires Unique(code) && AllHaveBlocks(body) && header != [] && CycleAt(code, p, check, ConditionOps(expr, header), inner.code)
    requires var line, own := StatementTokens(header), Cycle(check + 1, check);
             Some(inner) == if line != [] then Some(Lowered(ExpressionOps(expr, line, own), check + 2))
                            else LowerAll(expr, body, check + 2, own)
    ensures ExecLoop(m, expr, header, body, s, fuel).Normal? || ExecLoop(m, expr, header, body, s, fuel).Unfinished?
    ensures Matches(m, code, p, p + |ConditionOps(expr, header)| + |inner.code| + 4, NoCycle, s,
                    ExecLoop(m, expr, header, body, s, fuel), n, fuel)
    decreases fuel, body, 2
  {
    hide LowerAll, ExecAll, ExpressionOps, ConditionOps, Reaches, Find, At;
    var condition := ConditionOps(expr, header);
    var b := p + 1 + |condition| + 1;
    var g := b + |inner.code|;
    if fuel == 0 {
      n := 0;
      NoSteps(m, code, Conf(p, s));
    } else {
      NoSteps(m, code, Conf(p, s));
      PassMark(m, code, p, s, 0, p, s);
      var k := ConditionRuns(m, expr, code, p + 1, header, check + 1, s);
      var s1 := Ask(m, expr, header, s);
      var s2 := m.drop(s1);
      ReachesThen(m, code, Conf(p, s), 1, Conf(p + 1, s), k, Conf(if m.test(s1) then b else g + 1, s2));
      if !m.test(s1) {
        PassMark(m, code, p, s, 1 + k, g + 1, s2);
        n := 1 + k + 1;
      } else {
        n := RoundMatches(m, expr, code, p, header, body, check, inner, s, 1 + k, s2, fuel);
      }
    }
  }

  lemma NoSteps<S>(m: Meaning<S>, code: seq<POp>, c: Conf<S>)
    ensures Reaches(m, code, c, 0, c) && Run(m, code, c, 0) == c
  {
  }

  /** The rest of a round whose condition held, and the rounds after it. */
  lemma {:induction false} RoundMatches<S>(m: Meaning<S>, expr: ExpressionCode, code: seq<POp>, p: nat, header: seq<Token>,
                                           body: seq<Node>, check: nat, inner: Lowered, s: S, k: nat, s2: S, fuel: nat)
    returns (n: nat)
    requires Unique(code) && AllHaveBlocks(body) && header != [] && CycleAt(code, p, check, ConditionOps(expr, header), inner.code)
    requires var line, own := StatementTokens(header), Cycle(check + 1, check);
             Some(inner) == if line != [] then Some(Lowered(ExpressionOps(expr, line, own), check + 2))
                            else LowerAll(expr, body, check + 2, own)
    requires fuel > 0 && k > 0 && m.test(Ask(m, expr, header, s)) && s2 == m.drop(Ask(m, expr, header, s))
    requires Reaches(m, code, Conf(p, s), k, Conf(p + 1 + |ConditionOps(expr, header)| + 1, s2))
    ensures ExecLoop(m, expr, header, body, s, fuel).Normal? || ExecLoop(m, expr, header, body, s, fuel).Unfinished?
    ensures Matches(m, code, p, p + |ConditionOps(expr, header)| + |inner.code| + 4, NoCycle, s,
                    ExecLoop(m, expr, header, body, s, fuel), n, fuel)
    decreases fuel, body, 1
  {
    hide LowerAll, ExecAll, ExpressionOps, ConditionOps, Reaches, Find, At;
    var line, own := StatementTokens(header), Cycle(check + 1, check);
    var b := p + 1 + |ConditionOps(expr, header)| + 1;
    var g := b + |inner.code|;
    var o := if line != [] then ExecExpression(m, expr, line, s2) else ExecAll(m, expr, body, s2, fuel - 1);
    var j := InnerMatches(m, expr, code, b, header, body, check + 2, own, inner, s2, fuel - 1);
    MatchesAfter(m, code, p, s, k, b, s2, g, own, o, j, fuel - 1);
    match o {
      case Normal(s3) =>
        PassGoto(m, code, p, s, k + j, g, s3, check);
        n := NextRound(m, expr, code, p, header, body, check, inner, s, k + j + 1, s3, fuel);
      case Continued(s3) =>
        n := NextRound(m, expr, code, p, header, body, check, inner, s, k + j, s3, fuel);
      case Broke(s3) =>
        PassMark(m, code, p, s, k + j, g + 1, s3);
        n := k + j + 1;
      case Unfinished =>
        n := k + j;
    }
  }

  lemma {:induction false} NextRound<S>(m: Meaning<S>, expr: ExpressionCode, code: seq<POp>, p: nat, header: seq<Token>,
                                        body: seq<Node>, check: nat, inner: Lowered, s: S, k: nat, s3: S, fuel: nat)
    returns (n: nat)
    requires Unique(code) && AllHaveBlocks(body) && header != [] && CycleAt(code, p, check, ConditionOps(expr, header), inner.code)
    requires var line, own := StatementTokens(header), Cycle(check + 1, check);
             Some(inner) == if line != [] then Some(Lowered(ExpressionOps(expr, line, own), check + 2))
                            else LowerAll(expr, body, check + 2, own)
    requires fuel > 0 && k > 0 && Reaches(m, code, Conf(p, s), k, Conf(p, s3))
    ensures ExecLoop(m, expr, header, body, s3, fuel - 1).Normal? || ExecLoop(m, expr, header, body, s3, fuel - 1).Unfinished?
    ensures Matches(m, code, p, p + |ConditionOps(expr, header)| + |inner.code| + 4, NoCycle, s,
                    ExecLoop(m, expr, header, body, s3, fuel - 1), n, fuel)
    decreases fuel, body, 0
  {
    hide LowerAll, ExecAll, ExpressionOps, ConditionOps, Reaches, Find, At, CycleAt, ExecLoop;
    var j := LoopMatches(m, expr, code, p, header, body, check, inner, s3, fuel - 1);
    var q := p + |ConditionOps(expr, header)| + |inner.code| + 4;
    MatchesAfter(m, code, p, s, k, p, s3, q, NoCycle, ExecLoop(m, expr, header, body, s3, fuel - 1), j, fuel - 1);
    n := k + j;
  }

  lemma {:induction false} WhileMatches<S>(m: Meaning<S>, expr: ExpressionCode, code: seq<POp>, p: nat, header: seq<Token>,
                                           body: seq<Node>, next: nat, targets: Targets, s: S, fuel: nat)
    returns (n: nat)
    requires Unique(code) && TargetsOk(code, targets) && AllHaveBlocks(body) && LowerWhile(expr, header, body, next, targets).Some?
    requires At(code, p, LowerWhile(expr, header, body, next, targets).value.code)
    ensures Matches(m, code, p, p + |LowerWhile(expr, header, body, next, targets).value.code|, targets, s,
                    ExecWhile(m, expr, header, body, s, fuel), n, fuel)
    decreases fuel, body, 3
  {
    hide LowerAll, ExecAll, ExpressionOps, ConditionOps, Reaches, Find, At, ExecLoop;
    var line, own := SplitHeader(header).statement, Cycle(next + 1, next);
    var inner := if line != [] then Lowered(ExpressionOps(expr, line, own), next + 2) else LowerAll(expr, body, next + 2, own).value;
    var after := if line != [] then LowerAll(expr, body, inner.next, targets).value else Lowered([], inner.next);
    CycleParts(code, p, next, ConditionOps(expr, header), inner.code, after.code);
    n := LoopMatches(m, expr, code, p, header, body, next, inner, s, fuel);
    var o := ExecLoop(m, expr, header, body, s, fuel);
    var q := p + |ConditionOps(expr, header)| + |inner.code| + 4;
    if o.Normal? && line != [] {
      var k := AllMatches(m, expr, code, q, body, inner.next, targets, o.s, fuel);
      MatchesAfter(m, code, p, s, n, q, o.s, q + |after.code|, targets, ExecAll(m, expr, body, o.s, fuel), k, fuel);
      n := n + k;
    }
  }

  // ----- whole programs -----

  /** Once past the end a run stays there. */
  lemma StaysHalted<S>(m: Meaning<S>, code: seq<POp>, c: Conf<S>, n: nat, k: nat)
    requires Run(m, code, c, n).pc >= |code|
    ensures Run(m, code, c, n + k) == Run(m, code, c, n)
  {
    RunAdd(m, code, c, n, k);
  }

  ghost predicate Halts<S>(m: Meaning<S>, code: seq<POp>, s: S, s': S) {
    exists n: nat :: Run(m, code, Conf(0, s), n) == Conf(|code|, s')
  }

  ghost predicate Finishes<S>(m: Meaning<S>, expr: ExpressionCode, nodes: seq<Node>, s: S, s': S) {
    exists fuel: nat :: ExecAll(m, expr, nodes, s, fuel) == Normal(s')
  }

  lemma WholeAt(code: seq<POp>)
    ensures At(code, 0, code)
  {
  }

  /** A statement whose break and continue are all inside cycles never leaves by one. */
  ghost predicate StaysInside<S>(o: Outcome<S>) {
    o.Normal? || o.Unfinished?
  }

  lemma {:induction false} NodeStays<S>(m: Meaning<S>, expr: ExpressionCode, n: Node, s: S, fuel: nat)
    requires Scoped(n)
    ensures StaysInside(ExecNode(m, expr, n, s, fuel))
    decreases n, 0
  {
    match n
    case Expression(_) =>
    case ScopeMark(_) =>
    case Block(children) => AllStay(m, expr, children, s, fuel);
    case IfGroup(clauses) =>
      if clauses != [] {
        ClausesStay(m, expr, clauses, s, fuel);
        var o, last := ExecClauses(m, expr, clauses, s, fuel), clauses[|clauses| - 1];
        if o.Normal? && LineOf(last) != [] {
          AllStay(m, expr, last.body, o.s, fuel);
        }
      }
    case WhileCycle(header, body) =>
      LoopStays(m, expr, header, body, s, fuel);
      var o := ExecLoop(m, expr, header, body, s, fuel);
      if o.Normal? && StatementTokens(header) != [] {
        AllStay(m, expr, body, o.s, fuel);
      }
  }

  lemma {:induction false} AllStay<S>(m: Meaning<S>, expr: ExpressionCode, nodes: seq<Node>, s: S, fuel: nat)
    requires AllScoped(nodes)
    ensures StaysInside(ExecAll(m, expr, nodes, s, fuel))
    decreases nodes, 0
  {
    if nodes != [] {
      NodeStays(m, expr, nodes[0], s, fuel);
      var o := ExecNode(m, expr, nodes[0], s, fuel);
      if o.Normal? {
        AllStay(m, expr, nodes[1..], o.s, fuel);
      }
    }
  }

  lemma {:induction false} ClausesStay<S>(m: Meaning<S>, expr: ExpressionCode, clauses: seq<Clause>, s: S, fuel: nat)
    requires ClausesScoped(clauses)
    ensures StaysInside(ExecClauses(m, expr, clauses, s, fuel))
    decreases clauses, 0
  {
    if clauses != [] {
      var c := clauses[0];
      if c.kind == Else {
        BranchStays(m, expr, c, s, fuel);
        var o := ExecBranch(m, expr, c, s, fuel);
        if o.Normal? {
          ClausesStay(m, expr, clauses[1..], o.s, fuel);
        }
      } else {
        var s2 := m.drop(Ask(m, expr, c.tokens, s));
        BranchStays(m, expr, c, s2, fuel);
        ClausesStay(m, expr, clauses[1..], s2, fuel);
      }
    }
  }

  lemma {:induction false} BranchStays<S>(m: Meaning<S>, expr: ExpressionCode, c: Clause, s: S, fuel: nat)
    requires BranchScoped(c)
    ensures StaysInside(ExecBranch(m, expr, c, s, fuel))
    decreases c, 0
  {
    if LineOf(c) == [] {
      AllStay(m, expr, c.body, s, fuel);
    }
  }

  lemma {:induction false} LoopStays<S>(m: Meaning<S>, expr: ExpressionCode, header: seq<Token>, body: seq<Node>, s: S, fuel: nat)
    ensures StaysInside(ExecLoop(m, expr, header, body, s, fuel))
    decreases fuel
  {
    if fuel > 0 && m.test(Ask(m, expr, header, s)) {
      var line, s2 := StatementTokens(header), m.drop(Ask(m, expr, header, s));
      var o := if line != [] then ExecExpression(m, expr, line, s2) else ExecAll(m, expr, body, s2, fuel - 1);
      if o.Normal? || o.Continued? {
        LoopStays(m, expr, header, body, o.s, fuel - 1);
      }
    }
  }

  /** With every group settled, one branch of each group at a time is what runs. */
  lemma SettledFinishes<S>(m: Meaning<S>, expr: ExpressionCode, nodes: seq<Node>, s: S, s': S)
    requires AllSettled(expr, nodes)
    ensures Finishes(m, expr, nodes, s, s') <==> FinishesAsMeant(m, expr, nodes, s, s')
  {
    hide AllSettled, ExecAll, MeantAll;
    forall fuel: nat
      ensures MeantAll(m, expr, nodes, s, fuel) == ExecAll(m, expr, nodes, s, fuel)
    {
      AllAsMeant(m, expr, nodes, s, fuel);
    }
    if Finishes(m, expr, nodes, s, s') {
      var fuel: nat :| ExecAll(m, expr, nodes, s, fuel) == Normal(s');
      assert MeantAll(m, expr, nodes, s, fuel) == Normal(s');
    }
    if FinishesAsMeant(m, expr, nodes, s, s') {
      var fuel: nat :| MeantAll(m, expr, nodes, s, fuel) == Normal(s');
      assert ExecAll(m, expr, nodes, s, fuel) == Normal(s');
    }
  }

  /**
   * The flat code of a program halts in a state exactly when the program, executed statement by statement, finishes in it.
   * In particular one diverges exactly when the other does. With every group settled only one branch of each runs.
   */
  lemma ProgramMeaning<S>(m: Meaning<S>, expr: ExpressionCode, nodes: seq<Node>, next: nat, s: S, s': S)
    requires LowerAll(expr, nodes, next, NoCycle).Some? && AllHaveBlocks(nodes) && AllScoped(nodes)
    ensures Halts(m, LowerAll(expr, nodes, next, NoCycle).value.code, s, s') <==> Finishes(m, expr, nodes, s, s')
    ensures AllSettled(expr, nodes) ==>
              (Halts(m, LowerAll(expr, nodes, next, NoCycle).value.code, s, s') <==> FinishesAsMeant(m, expr, nodes, s, s'))
  {
    hide AllSettled, FinishesAsMeant;
    if AllSettled(expr, nodes) {
      SettledFinishes(m, expr, nodes, s, s');
    }
    var code := LowerAll(expr, nodes, next, NoCycle).value.code;
    AllNumbered(expr, nodes, next, NoCycle);
    WholeAt(code);
    if Finishes(m, expr, nodes, s, s') {
      var fuel: nat :| ExecAll(m, expr, nodes, s, fuel) == Normal(s');
      var n := AllMatches(m, expr, code, 0, nodes, next, NoCycle, s, fuel);
    }
    if Halts(m, code, s, s') {
      var n: nat :| Run(m, code, Conf(0, s), n) == Conf(|code|, s');
      var o := ExecAll(m, expr, nodes, s, n);
      var k := AllMatches(m, expr, code, 0, nodes, next, NoCycle, s, n);
      AllStay(m, expr, nodes, s, n);
      HaltedOnce(m, code, Conf(0, s), n, k);
    }
  }

  /** Two halted runs from one configuration end alike, and no longer run is unhalted. */
  lemma HaltedOnce<S>(m: Meaning<S>, code: seq<POp>, c: Conf<S>, n: nat, k: nat)
    requires Run(m, code, c, n).pc >= |code|
    ensures k >= n ==> Run(m, code, c, k) == Run(m, code, c, n)
    ensures Run(m, code, c, k).pc >= |code| ==> Run(m, code, c, k) == Run(m, code, c, n)
  {
    if k >= n {
      StaysHalted(m, code, c, n, k - n);
    } else if Run(m, code, c, k).pc >= |code| {
      StaysHalted(m, code, c, k, n - k);
    }
  }

  /** More fuel never changes an outcome that did not run out of it: the structured meaning is a function of the start. */
  lemma FinishIsUnique<S>(m: Meaning<S>, expr: ExpressionCode, nodes: seq<Node>, next: nat, s: S, a: S, b: S)
    requires LowerAll(expr, nodes, next, NoCycle).Some? && AllHaveBlocks(nodes) && AllScoped(nodes)
    requires Finishes(m, expr, nodes, s, a) && Finishes(m, expr, nodes, s, b)
    ensures a == b
  {
    ProgramMeaning(m, expr, nodes, next, s, a);
    ProgramMeaning(m, expr, nodes, next, s, b);
    var code := LowerAll(expr, nodes, next, NoCycle).value.code;
    var n: nat :| Run(m, code, Conf(0, s), n) == Conf(|code|, a);
    var k: nat :| Run(m, code, Conf(0, s), k) == Conf(|code|, b);
    HaltedOnce(m, code, Conf(0, s), n, k);
  }

  // ----- cycles without a block -----

  /** A meaning in which only conditions do something: each that holds counts down. */
  function Countdown(): Meaning<int> {
    Meaning((op, s) => s, s => s > 0, s => if s > 0 then s - 1 else s)
  }

  lemma {:induction false} CountdownOps(ops: seq<PseudoOp>, s: int)
    ensures RunOps(Countdown(), ops, s) == s
  {
    if ops != [] {
      CountdownOps(ops[1..], s);
    }
  }

  lemma CountdownRound(expr: ExpressionCode, header: seq<Token>, fuel: nat)
    ensures var o := ExecWhile(Countdown(), expr, header, [], 1, fuel); o == Normal(0) || (o == Unfinished && fuel < 2)
  {
    var line := StatementTokens(header);
    CountdownOps(expr(ConditionTokens(header)), 1);
    CountdownOps(expr(ConditionTokens(header)), 0);
    CountdownOps(expr(line), 0);
    if fuel >= 2 {
      assert ExecLoop(Countdown(), expr, header, [], 0, fuel - 1) == Normal(0);
      assert ExecAll(Countdown(), expr, [], 0, fuel - 1) == Normal(0);
    } else if fuel == 1 {
      assert ExecLoop(Countdown(), expr, header, [], 0, 0) == Unfinished;
    }
  }

  /**
   * A cycle whose statement stands on its own line, with no block after it, emits no code at all.
   * Its code and its meaning then differ: this one counts from 1 to 0, its code leaves 1 as it is.
   */
  lemma CycleWithoutBlockIsDropped(expr: ExpressionCode, header: seq<Token>, next: nat, targets: Targets)
    ensures LowerAll(expr, [WhileCycle(header, [])], next, targets) == Some(Lowered([], next))
    ensures Halts(Countdown(), [], 1, 1)
    ensures Finishes(Countdown(), expr, [WhileCycle(header, [])], 1, 0)
    ensures !Finishes(Countdown(), expr, [WhileCycle(header, [])], 1, 1)
  {
    var nodes := [WhileCycle(header, [])];
    assert nodes[1..] == [];
    var none: seq<POp> := [];
    assert none + none == none;
    assert LowerAll(expr, nodes[1..], next, targets) == Some(Lowered(none, next));
    assert Run(Countdown(), [], Conf(0, 1), 0) == Conf(0, 1);
    forall fuel: nat
      ensures var o := ExecAll(Countdown(), expr, nodes, 1, fuel); o == Normal(0) || (o == Unfinished && fuel < 2)
    {
      CountdownRound(expr, header, fuel);
    }
    assert ExecAll(Countdown(), expr, nodes, 1, 2) == Normal(0);
  }

  // ----- an else behind an else -----

  function Phrase(word: string): seq<Token> {
    [Token(Identifier, Name(word))]
  }

  function Header(): seq<Token> {
    [Token(Keyword, Name("if")), Token(Delimiter, LParen), Token(Identifier, Name("c")), Token(Delimiter, RParen)]
  }

  function ElseWord(): seq<Token> {
    [Token(Keyword, Name("else"))]
  }

  /** if (c) { a } else { b } else { d } */
  function TwoElses(): seq<Clause> {
    [Clause(If, Header(), [Expression(Phrase("a"))]),
     Clause(Else, ElseWord(), [Expression(Phrase("b"))]),
     Clause(Else, ElseWord(), [Expression(Phrase("d"))])]
  }

  lemma HeaderParts()
    ensures SplitHeader(Header()) == Syntax.Header(Phrase("c"), [])
  {
    var h := Header();
    assert h == [h[0], h[1]] + Phrase("c") + [h[3]] + [];
    assert Phrase("c")[1..] == [];
    HeaderRoundTrip(h[0], h[1], Phrase("c"), h[3], []);
  }

  lemma TwoElsesParts()
    ensures var g := TwoElses(); g[1..] == [g[1], g[2]] && g[1..][1..] == [g[2]] && g[1..][1..][1..] == [] && [IfGroup(g)][1..] == []
    ensures forall k :: 0 <= k < 3 ==> LineOf(TwoElses()[k]) == []
    ensures ConditionOk(TwoElses()[0]) && GroupOk(TwoElses()) && !ElseIsLast(TwoElses())
  {
    HeaderParts();
    assert TwoElses()[1].kind == Else;
  }

  lemma TwoElsesAccepted(expr: ExpressionCode)
    ensures LowerAll(expr, [IfGroup(TwoElses())], 0, NoCycle).Some?
    ensures AllHaveBlocks([IfGroup(TwoElses())]) && AllScoped([IfGroup(TwoElses())])
    ensures Settled(expr, TwoElses()) <==> expr(Phrase("d")) == []
  {
    hide LineOf, GroupOk, ConditionOk, LowerBranch, BranchHasBlocks, BranchScoped, BranchCompletes, BranchSilent, ConditionOps;
    var g := TwoElses();
    TwoElsesParts();
    WordBranch(expr, g[0], "a", 2);
    WordBranch(expr, g[1], "b", 2);
    WordBranch(expr, g[2], "d", 2);
    assert LowerClauses(expr, g[1..][1..], 2, NoCycle, Some(0)).Some?;
    assert LowerClauses(expr, g[1..], 2, NoCycle, Some(0)).Some?;
    assert LowerClauses(expr, g, 1, NoCycle, Some(0)).Some?;
    assert LowerNode(expr, IfGroup(g), 0, NoCycle).Some?;
    assert ClausesHaveBlocks(g[1..][1..]) && ClausesScoped(g[1..][1..]) && (ClausesSilent(expr, g[1..][1..]) <==> expr(Phrase("d")) == []);
    assert ClausesHaveBlocks(g[1..]) && ClausesScoped(g[1..]);
  }

  lemma WordBranch(expr: ExpressionCode, c: Clause, word: string, next: nat)
    requires c.body == [Expression(Phrase(word))] && LineOf(c) == []
    ensures LowerBranch(expr, c, next, NoCycle).Some? && LowerBranch(expr, c, next, NoCycle).value.next == next
    ensures BranchHasBlocks(c) && BranchScoped(c) && BranchCompletes(c) && (BranchSilent(expr, c) <==> expr(Phrase(word)) == [])
  {
    hide LineOf;
    var n, none: seq<Node> := Expression(Phrase(word)), [];
    assert c.body[0] == n && c.body[1..] == none;
    assert LowerAll(expr, none, next, NoCycle) == Some(Lowered([], next)) && AllSilent(expr, none) && AllScoped(none);
    assert !IsBreak(Phrase(word)) && !IsContinue(Phrase(word));
    assert HasBlocks(n) && Scoped(n) && Completes(n) && AllHaveBlocks(none) && AllComplete(none);
    assert LowerNode(expr, n, next, NoCycle).Some? && (Silent(expr, n) <==> expr(Phrase(word)) == []);
  }

  lemma WordBranchDoes<S>(m: Meaning<S>, expr: ExpressionCode, c: Clause, word: string, s: S)
    requires c.body == [Expression(Phrase(word))] && LineOf(c) == []
    ensures ExecBranch(m, expr, c, s, 0) == Normal(RunOps(m, expr(Phrase(word)), s))
  {
    hide LineOf, RunOps;
    var n, none: seq<Node> := Expression(Phrase(word)), [];
    assert c.body[0] == n && c.body[1..] == none;
    var s' := RunOps(m, expr(Phrase(word)), s);
    assert ExecAll(m, expr, none, s', 0) == Normal(s');
    assert ExecNode(m, expr, n, s, 0) == Normal(s');
  }

  lemma TwoElsesRun<S>(m: Meaning<S>, expr: ExpressionCode, s: S)
    requires !m.test(Ask(m, expr, Header(), s))
    ensures var after := RunOps(m, expr(Phrase("b")), m.drop(Ask(m, expr, Header(), s)));
            && ExecAll(m, expr, [IfGroup(TwoElses())], s, 0) == Normal(RunOps(m, expr(Phrase("d")), after))
            && ExecChosen(m, expr, TwoElses(), s, 0) == Normal(after)
  {
    hide LineOf, GroupOk, ExecBranch, RunOps;
    var g := TwoElses();
    TwoElsesParts();
    var s2 := m.drop(Ask(m, expr, Header(), s));
    var s3 := RunOps(m, expr(Phrase("b")), s2);
    WordBranchDoes(m, expr, g[1], "b", s2);
    WordBranchDoes(m, expr, g[2], "d", s3);
    assert Chosen(m, expr, g[1..], s2) == 0 && Asked(m, expr, g[1..], s2) == s2;
    assert ExecClauses(m, expr, g[1..][1..], s3, 0) == Normal(RunOps(m, expr(Phrase("d")), s3));
    assert ExecClauses(m, expr, g[1..], s2, 0) == Normal(RunOps(m, expr(Phrase("d")), s3));
    assert ExecNode(m, expr, IfGroup(g), s, 0) == Normal(RunOps(m, expr(Phrase("d")), s3));
  }

  /**
   * A group with an else behind its else is accepted, and when its condition fails both run: the code halts with the effect of b followed by
   * that of d, where b alone was meant. Only when d has no code is that the same.
   */
  lemma BothElsesRun<S>(m: Meaning<S>, expr: ExpressionCode, s: S)
    requires !m.test(Ask(m, expr, Header(), s))
    ensures var g, nodes := TwoElses(), [IfGroup(TwoElses())];
            var after := RunOps(m, expr(Phrase("b")), m.drop(Ask(m, expr, Header(), s)));
            && GroupOk(g) && !ElseIsLast(g) && (Settled(expr, g) <==> expr(Phrase("d")) == [])
            && LowerAll(expr, nodes, 0, NoCycle).Some?
            && Halts(m, LowerAll(expr, nodes, 0, NoCycle).value.code, s, RunOps(m, expr(Phrase("d")), after))
            && ExecChosen(m, expr, g, s, 0) == Normal(after)
  {
    hide LowerAll, ExecAll, ExecChosen, Settled, AllHaveBlocks, AllScoped, AllSettled, TwoElses, Halts, RunOps;
    TwoElsesParts();
    TwoElsesAccepted(expr);
    TwoElsesRun(m, expr, s);
    var after := RunOps(m, expr(Phrase("b")), m.drop(Ask(m, expr, Header(), s)));
    ProgramMeaning(m, expr, [IfGroup(TwoElses())], 0, s, RunOps(m, expr(Phrase("d")), after));
  }
}
