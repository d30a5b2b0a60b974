/** The translation with no cycle dropped: when it agrees with the translation as it is, and what it means. */
module LoweringIntended {
  import opened ByteCode
  import opened Pseudo
  import opened Syntax
  import opened Tokens
  import opened LoweringSpec
  import opened BreakScoping
  import opened StructuredMeaning
  import opened FirstBranch
  import opened LoweringCorrect

  // ----- an empty block for every cycle without one -----

  function Completed(n: Node): Node
    decreases n, 0
  {
    match n
    case Expression(tokens) => n
    case ScopeMark(opens) => n
    case Block(children) => Block(AllCompleted(children))
    case IfGroup(clauses) => IfGroup(ClausesCompleted(clauses))
    case WhileCycle(header, body) => WhileCycle(header, if body == [] then [Block([])] else AllCompleted(body))
  }

  function AllCompleted(nodes: seq<Node>): (r: seq<Node>)
    ensures |r| == |nodes|
    decreases nodes, 0
  {
    if nodes == [] then [] else [Completed(nodes[0])] + AllCompleted(nodes[1..])
  }

  function ClausesCompleted(clauses: seq<Clause>): (r: seq<Clause>)
    ensures |r| == |clauses|
    decreases clauses, 0
  {
    if clauses == [] then [] else [ClauseCompleted(clauses[0])] + ClausesCompleted(clauses[1..])
  }

  function ClauseCompleted(c: Clause): Clause
    decreases c, 0
  {
    c.(body := AllCompleted(c.body))
  }

  lemma {:induction false} ClausesAt(clauses: seq<Clause>)
    ensures forall k :: 0 <= k < |clauses| ==> ClausesCompleted(clauses)[k] == ClauseCompleted(clauses[k])
  {
    if clauses != [] {
      ClausesAt(clauses[1..]);
      assert forall k :: 0 < k < |clauses| ==> clauses[1..][k - 1] == clauses[k];
    }
  }

  lemma CompletedClause(c: Clause, several: bool)
    ensures LineOf(ClauseCompleted(c)) == LineOf(c) && ClauseOk(ClauseCompleted(c), several) == ClauseOk(c, several)
  {
  }

  lemma ClausesCons(clauses: seq<Clause>)
    ensures clauses == [] ==> ClausesCompleted(clauses) == []
    ensures clauses != [] ==> var r := ClausesCompleted(clauses);
              r != [] && r[0] == ClauseCompleted(clauses[0]) && r[1..] == ClausesCompleted(clauses[1..])
  {
    if clauses != [] {
      CompletedTail(ClauseCompleted(clauses[0]), ClausesCompleted(clauses[1..]));
    }
  }

  lemma SameClause(c: Clause, several: bool)
    ensures ClauseCompleted(c).kind == c.kind && ClauseCompleted(c).tokens == c.tokens
    ensures ClauseOk(ClauseCompleted(c), several) == ClauseOk(c, several)
  {
  }

  /** Whether a group is accepted depends on the kinds of its clauses only. */
  lemma SameKinds(a: seq<Clause>, b: seq<Clause>)
    requires |a| == |b| && forall k :: 0 <= k < |a| ==> a[k].kind == b[k].kind
    ensures GroupOk(a) == GroupOk(b)
  {
  }

  lemma CompletedGroup(clauses: seq<Clause>)
    requires clauses != []
    ensures GroupOk(ClausesCompleted(clauses)) == GroupOk(clauses)
    ensures var last := ClausesCompleted(clauses)[|clauses| - 1];
            LineOf(last) == LineOf(clauses[|clauses| - 1]) && last.body == AllCompleted(clauses[|clauses| - 1].body)
  {
    hide GroupOk, LineOf, ClausesCompleted, AllCompleted, ClauseOk;
    ClausesAt(clauses);
    CompletedClause(clauses[|clauses| - 1], false);
    SameKinds(ClausesCompleted(clauses), clauses);
  }

  lemma CompletedTail<T>(x: T, rest: seq<T>)
    ensures ([x] + rest)[0] == x && ([x] + rest)[1..] == rest
  {
  }

  // ----- same meaning -----

  lemma {:induction false} CompletedMeans<S>(m: Meaning<S>, expr: ExpressionCode, n: Node, s: S, fuel: nat)
    ensures ExecNode(m, expr, Completed(n), s, fuel) == ExecNode(m, expr, n, s, fuel)
    decreases fuel, n, 0
  {
    hide ExecAll, ExecIf, ExecWhile, ExecExpression;
    match n
    case Expression(_) =>
    case ScopeMark(_) =>
    case Block(children) => AllMeans(m, expr, children, s, fuel);
    case IfGroup(clauses) =>
      if clauses != [] {
        IfMeans(m, expr, clauses, s, fuel);
      }
    case WhileCycle(header, body) => WhileMeans(m, expr, header, body, s, fuel);
  }

  lemma {:induction false} AllMeans<S>(m: Meaning<S>, expr: ExpressionCode, nodes: seq<Node>, s: S, fuel: nat)
    ensures ExecAll(m, expr, AllCompleted(nodes), s, fuel) == ExecAll(m, expr, nodes, s, fuel)
    decreases fuel, nodes, 0
  {
    hide ExecNode, Completed;
    if nodes != [] {
      CompletedTail(Completed(nodes[0]), AllCompleted(nodes[1..]));
      CompletedMeans(m, expr, nodes[0], s, fuel);
      var o := ExecNode(m, expr, nodes[0], s, fuel);
      if o.Normal? {
        AllMeans(m, expr, nodes[1..], o.s, fuel);
      }
    }
  }

  lemma {:induction false} BranchMeans<S>(m: Meaning<S>, expr: ExpressionCode, c: Clause, s: S, fuel: nat)
    ensures ExecBranch(m, expr, ClauseCompleted(c), s, fuel) == ExecBranch(m, expr, c, s, fuel)
    decreases fuel, c, 0
  {
    hide ExecAll, ExecExpression;
    CompletedClause(c, false);
    if LineOf(c) == [] {
      AllMeans(m, expr, c.body, s, fuel);
    }
  }

  lemma {:induction false} ClausesMean<S>(m: Meaning<S>, expr: ExpressionCode, clauses: seq<Clause>, s: S, fuel: nat)
    ensures ExecClauses(m, expr, ClausesCompleted(clauses), s, fuel) == ExecClauses(m, expr, clauses, s, fuel)
    decreases fuel, clauses, 0
  {
    hide ExecBranch;
    if clauses != [] {
      var c := clauses[0];
      CompletedTail(ClauseCompleted(c), ClausesCompleted(clauses[1..]));
      if c.kind == Else {
        BranchMeans(m, expr, c, s, fuel);
        var o := ExecBranch(m, expr, c, s, fuel);
        if o.Normal? {
          ClausesMean(m, expr, clauses[1..], o.s, fuel);
        }
      } else {
        var s2 := m.drop(Ask(m, expr, c.tokens, s));
        BranchMeans(m, expr, c, s2, fuel);
        ClausesMean(m, expr, clauses[1..], s2, fuel);
      }
    }
  }

  lemma {:induction false} IfMeans<S>(m: Meaning<S>, expr: ExpressionCode, clauses: seq<Clause>, s: S, fuel: nat)
    requires clauses != []
    ensures ExecIf(m, expr, ClausesCompleted(clauses), s, fuel) == ExecIf(m, expr, clauses, s, fuel)
    decreases fuel, clauses, 1
  {
    hide ExecClauses, ExecAll, GroupOk;
    CompletedGroup(clauses);
    ClausesMean(m, expr, clauses, s, fuel);
    var o, last := ExecClauses(m, expr, clauses, s, fuel), clauses[|clauses| - 1];
    if o.Normal? && LineOf(last) != [] {
      AllMeans(m, expr, last.body, o.s, fuel);
    }
  }

  function BodyCompleted(body: seq<Node>): seq<Node> {
    if body == [] then [Block([])] else AllCompleted(body)
  }

  lemma {:induction false} BodyMeans<S>(m: Meaning<S>, expr: ExpressionCode, body: seq<Node>, s: S, fuel: nat)
    ensures ExecAll(m, expr, BodyCompleted(body), s, fuel) == ExecAll(m, expr, body, s, fuel)
    decreases fuel, body, 1
  {
    if body == [] {
      assert [Block([])][1..] == [];
      assert ExecNode(m, expr, Block([]), s, fuel) == Normal(s);
    } else {
      AllMeans(m, expr, body, s, fuel);
    }
  }

  lemma {:induction false} LoopMeans<S>(m: Meaning<S>, expr: ExpressionCode, header: seq<Token>, body: seq<Node>, s: S, fuel: nat)
    ensures ExecLoop(m, expr, header, BodyCompleted(body), s, fuel) == ExecLoop(m, expr, header, body, s, fuel)
    decreases fuel, body, 2
  {
    hide ExecAll, ExecExpression, BodyCompleted;
    if fuel > 0 {
      var line, s2 := StatementTokens(header), m.drop(Ask(m, expr, header, s));
      BodyMeans(m, expr, body, s2, fuel - 1);
      var o := if line != [] then ExecExpression(m, expr, line, s2) else ExecAll(m, expr, body, s2, fuel - 1);
      if o.Normal? || o.Continued? {
        LoopMeans(m, expr, header, body, o.s, fuel - 1);
      }
    }
  }

  lemma {:induction false} WhileMeans<S>(m: Meaning<S>, expr: ExpressionCode, header: seq<Token>, body: seq<Node>, s: S, fuel: nat)
    ensures ExecWhile(m, expr, header, BodyCompleted(body), s, fuel) == ExecWhile(m, expr, header, body, s, fuel)
    decreases fuel, body, 3
  {
    hide ExecLoop, ExecAll, BodyCompleted;
    LoopMeans(m, expr, header, body, s, fuel);
    var o := ExecLoop(m, expr, header, body, s, fuel);
    if o.Normal? {
      BodyMeans(m, expr, body, o.s, fuel);
    }
  }

  // ----- nothing else changes -----

  lemma {:induction false} CompletedFacts(n: Node)
    ensures HasBlocks(Completed(n)) && (Scoped(n) ==> Scoped(Completed(n)))
    decreases n, 0
  {
    hide AllScoped, AllHaveBlocks, IfScoped, IfHasBlocks;
    match n
    case Expression(_) =>
    case ScopeMark(_) =>
    case Block(children) => AllFacts(children);
    case IfGroup(clauses) =>
      if clauses != [] {
        GroupFacts(clauses);
      }
    case WhileCycle(header, body) =>
      AllFacts(body);
      EmptyBlockFacts();
  }

  lemma EmptyBlockFacts()
    ensures AllHaveBlocks([Block([])]) && AllScoped([Block([])])
  {
    assert [Block([])][1..] == [];
  }

  lemma {:induction false} AllFacts(nodes: seq<Node>)
    ensures AllHaveBlocks(AllCompleted(nodes)) && (AllScoped(nodes) ==> AllScoped(AllCompleted(nodes)))
    decreases nodes, 0
  {
    if nodes != [] {
      CompletedTail(Completed(nodes[0]), AllCompleted(nodes[1..]));
      CompletedFacts(nodes[0]);
      AllFacts(nodes[1..]);
    }
  }

  lemma {:induction false} BranchFacts(c: Clause)
    ensures BranchHasBlocks(ClauseCompleted(c)) && (BranchScoped(c) ==> BranchScoped(ClauseCompleted(c)))
    decreases c, 0
  {
    CompletedClause(c, false);
    AllFacts(c.body);
  }

  lemma {:induction false} ClausesFacts(clauses: seq<Clause>)
    ensures ClausesHaveBlocks(ClausesCompleted(clauses)) && (ClausesScoped(clauses) ==> ClausesScoped(ClausesCompleted(clauses)))
    decreases clauses, 0
  {
    hide ClauseCompleted, BranchHasBlocks, BranchScoped;
    if clauses != [] {
      CompletedTail(ClauseCompleted(clauses[0]), ClausesCompleted(clauses[1..]));
      BranchFacts(clauses[0]);
      ClausesFacts(clauses[1..]);
    }
  }

  lemma {:induction false} GroupFacts(clauses: seq<Clause>)
    requires clauses != []
    ensures IfHasBlocks(ClausesCompleted(clauses)) && (IfScoped(clauses) ==> IfScoped(ClausesCompleted(clauses)))
    decreases clauses, 1
  {
    hide ClausesHaveBlocks, ClausesScoped, AllHaveBlocks, AllScoped, LineOf, ClausesCompleted;
    CompletedGroup(clauses);
    ClausesFacts(clauses);
    AllFacts(clauses[|clauses| - 1].body);
  }

  // ----- with blocks everywhere the translation is the same -----

  lemma {:induction false} NodeSame(expr: ExpressionCode, n: Node, next: nat, targets: Targets)
    requires HasBlocks(n)
    ensures LowerNode(expr, Completed(n), next, targets) == LowerNode(expr, n, next, targets)
    decreases n, 0
  {
    hide LowerAll, LowerIf, LowerWhile, AllHaveBlocks, IfHasBlocks;
    match n
    case Expression(_) =>
    case ScopeMark(_) =>
    case Block(children) => AllSame(expr, children, next, targets);
    case IfGroup(clauses) =>
      if clauses != [] {
        IfSame(expr, clauses, next, targets);
      }
    case WhileCycle(header, body) => WhileSame(expr, header, body, next, targets);
  }

  lemma {:induction false} AllSame(expr: ExpressionCode, nodes: seq<Node>, next: nat, targets: Targets)
    requires AllHaveBlocks(nodes)
    ensures LowerAll(expr, AllCompleted(nodes), next, targets) == LowerAll(expr, nodes, next, targets)
    decreases nodes, 0
  {
    hide LowerNode, HasBlocks, Completed;
    if nodes != [] {
      CompletedTail(Completed(nodes[0]), AllCompleted(nodes[1..]));
      NodeSame(expr, nodes[0], next, targets);
      var first := LowerNode(expr, nodes[0], next, targets);
      if first.Some? {
        AllSame(expr, nodes[1..], first.value.next, targets);
      }
    }
  }

  lemma {:induction false} BranchSame(expr: ExpressionCode, c: Clause, next: nat, targets: Targets)
    requires BranchHasBlocks(c)
    ensures LowerBranch(expr, ClauseCompleted(c), next, targets) == LowerBranch(expr, c, next, targets)
    decreases c, 0
  {
    hide LowerAll, AllHaveBlocks;
    CompletedClause(c, false);
    if LineOf(c) == [] {
      AllSame(expr, c.body, next, targets);
    }
  }

  lemma {:induction false} ClausesSame(expr: ExpressionCode, clauses: seq<Clause>, next: nat, targets: Targets, end: Option<nat>)
    requires ClausesHaveBlocks(clauses)
    ensures LowerClauses(expr, ClausesCompleted(clauses), next, targets, end) == LowerClauses(expr, clauses, next, targets, end)
    decreases clauses, 0
  {
    hide LowerBranch, BranchHasBlocks, ClauseOk, ConditionOps;
    if clauses != [] {
      var c := clauses[0];
      CompletedTail(ClauseCompleted(c), ClausesCompleted(clauses[1..]));
      CompletedClause(c, end.Some?);
      if ClauseOk(c, end.Some?) {
        var start := if c.kind == Else then next else next + 1;
        BranchSame(expr, c, start, targets);
        var branch := LowerBranch(expr, c, start, targets);
        if branch.Some? {
          ClausesSame(expr, clauses[1..], branch.value.next, targets, end);
        }
      }
    }
  }

  lemma {:induction false} IfSame(expr: ExpressionCode, clauses: seq<Clause>, next: nat, targets: Targets)
    requires clauses != [] && IfHasBlocks(clauses)
    ensures LowerIf(expr, ClausesCompleted(clauses), next, targets) == LowerIf(expr, clauses, next, targets)
    decreases clauses, 1
  {
    hide LowerAll, LowerClauses, GroupOk, ClausesHaveBlocks, AllHaveBlocks, LineOf, ClausesCompleted;
    CompletedGroup(clauses);
    var several := |clauses| > 1;
    var start, end := if several then next + 1 else next, if several then Some(next) else None;
    ClausesSame(expr, clauses, start, targets, end);
    var body, last := LowerClauses(expr, clauses, start, targets, end), clauses[|clauses| - 1];
    if body.Some? && LineOf(last) != [] {
      AllSame(expr, last.body, body.value.next, targets);
    }
  }

  lemma {:induction false} WhileSame(expr: ExpressionCode, header: seq<Token>, body: seq<Node>, next: nat, targets: Targets)
    requires AllHaveBlocks(body)
    ensures LowerWhile(expr, header, AllCompleted(body), next, targets) == LowerWhile(expr, header, body, next, targets)
    decreases body, 1
  {
    hide LowerAll, AllHaveBlocks, ExpressionOps, ConditionOps, AllCompleted;
    if HeaderOk(header) {
      var line := SplitHeader(header).statement;
      if line == [] {
        AllSame(expr, body, next + 2, Cycle(next + 1, next));
      } else {
        AllSame(expr, body, next + 2, targets);
      }
    }
  }

  // ----- a cycle without a block makes the code shorter -----

  /** The translations of a statement before and after completion, wherever they start: the second is longer unless all cycles have blocks. */
  ghost predicate Longer(before: Option<Lowered>, after: Option<Lowered>, blocks: bool) {
    before.Some? && after.Some? ==>
      && |before.value.code| <= |after.value.code|
      && (|before.value.code| == |after.value.code| <==> blocks)
  }

  lemma {:induction false} NodeLonger(expr: ExpressionCode, n: Node, next: nat, targets: Targets, next': nat, targets': Targets)
    ensures Longer(LowerNode(expr, n, next, targets), LowerNode(expr, Completed(n), next', targets'), HasBlocks(n))
    decreases n, 0
  {
    hide LowerAll, LowerIf, LowerWhile, AllHaveBlocks, IfHasBlocks;
    match n
    case Expression(_) =>
    case ScopeMark(_) =>
    case Block(children) => AllLonger(expr, children, next, targets, next', targets');
    case IfGroup(clauses) =>
      if clauses != [] {
        IfLonger(expr, clauses, next, targets, next', targets');
      }
    case WhileCycle(header, body) =>
      if body == [] {
        WhileEmits(expr, header, [Block([])], next', targets');
      } else {
        WhileLonger(expr, header, body, next, targets, next', targets');
      }
  }

  lemma WhileEmits(expr: ExpressionCode, header: seq<Token>, body: seq<Node>, next: nat, targets: Targets)
    ensures var r := LowerWhile(expr, header, body, next, targets); r.Some? ==> |r.value.code| > 0
  {
    hide LowerAll, ExpressionOps, ConditionOps;
  }

  lemma {:induction false} AllLonger(expr: ExpressionCode, nodes: seq<Node>, next: nat, targets: Targets, next': nat, targets': Targets)
    ensures Longer(LowerAll(expr, nodes, next, targets), LowerAll(expr, AllCompleted(nodes), next', targets'), AllHaveBlocks(nodes))
    decreases nodes, 0
  {
    hide LowerNode, HasBlocks, Completed;
    if nodes != [] {
      CompletedTail(Completed(nodes[0]), AllCompleted(nodes[1..]));
      var first, first' := LowerNode(expr, nodes[0], next, targets), LowerNode(expr, Completed(nodes[0]), next', targets');
      NodeLonger(expr, nodes[0], next, targets, next', targets');
      if first.Some? && first'.Some? {
        AllLonger(expr, nodes[1..], first.value.next, targets, first'.value.next, targets');
      }
    }
  }

  lemma {:induction false} BranchLonger(expr: ExpressionCode, c: Clause, next: nat, targets: Targets, next': nat, targets': Targets)
    ensures Longer(LowerBranch(expr, c, next, targets), LowerBranch(expr, ClauseCompleted(c), next', targets'), BranchHasBlocks(c))
    decreases c, 0
  {
    hide LowerAll, AllHaveBlocks;
    CompletedClause(c, false);
    if LineOf(c) == [] {
      AllLonger(expr, c.body, next, targets, next', targets');
    }
  }

  lemma {:induction false} ClausesLonger(expr: ExpressionCode, clauses: seq<Clause>, next: nat, targets: Targets, end: Option<nat>,
                                         next': nat, targets': Targets, end': Option<nat>)
    requires end.Some? == end'.Some?
    ensures Longer(LowerClauses(expr, clauses, next, targets, end), LowerClauses(expr, ClausesCompleted(clauses), next', targets', end'),
                   ClausesHaveBlocks(clauses))
    decreases clauses, 0
  {
    hide LowerBranch, BranchHasBlocks, ClauseOk, ConditionOps, ClauseCompleted, LineOf, HeaderOk, ClausesCompleted;
    ClausesCons(clauses);
    if clauses != [] {
      var c := clauses[0];
      SameClause(c, end.Some?);
      if ClauseOk(c, end.Some?) {
        var k := if c.kind == Else then 0 else 1;
        BranchLonger(expr, c, next + k, targets, next' + k, targets');
        var branch, branch' := LowerBranch(expr, c, next + k, targets), LowerBranch(expr, ClauseCompleted(c), next' + k, targets');
        if branch.Some? && branch'.Some? {
          ClausesLonger(expr, clauses[1..], branch.value.next, targets, end, branch'.value.next, targets', end');
        }
      }
    }
  }

  lemma {:induction false} IfLonger(expr: ExpressionCode, clauses: seq<Clause>, next: nat, targets: Targets, next': nat, targets': Targets)
    requires clauses != []
    ensures Longer(LowerIf(expr, clauses, next, targets), LowerIf(expr, ClausesCompleted(clauses), next', targets'), IfHasBlocks(clauses))
    decreases clauses, 1
  {
    hide LowerAll, LowerClauses, GroupOk, ClausesHaveBlocks, AllHaveBlocks, LineOf, ClausesCompleted;
    CompletedGroup(clauses);
    var several, k := |clauses| > 1, if |clauses| > 1 then 1 else 0;
    var end, end' := if several then Some(next) else None, if several then Some(next') else None;
    ClausesLonger(expr, clauses, next + k, targets, end, next' + k, targets', end');
    var body := LowerClauses(expr, clauses, next + k, targets, end);
    var body' := LowerClauses(expr, ClausesCompleted(clauses), next' + k, targets', end');
    var last := clauses[|clauses| - 1];
    if body.Some? && body'.Some? && LineOf(last) != [] {
      AllLonger(expr, last.body, body.value.next, targets, body'.value.next, targets');
    }
  }

  lemma {:induction false} WhileLonger(expr: ExpressionCode, header: seq<Token>, body: seq<Node>, next: nat, targets: Targets,
                                       next': nat, targets': Targets)
    ensures Longer(LowerWhile(expr, header, body, next, targets), LowerWhile(expr, header, AllCompleted(body), next', targets'),
                   AllHaveBlocks(body))
    decreases body, 1
  {
    hide LowerAll, AllHaveBlocks, ConditionOps, AllCompleted;
    if HeaderOk(header) {
      if SplitHeader(header).statement == [] {
        AllLonger(expr, body, next + 2, Cycle(next + 1, next), next' + 2, Cycle(next' + 1, next'));
      } else {
        AllLonger(expr, body, next + 2, targets, next' + 2, targets');
      }
    }
  }

  // ----- the intended translation -----

  /** Every cycle is translated, also one whose statement stands on its own line with no block after it. */
  function LowerIntended(expr: ExpressionCode, nodes: seq<Node>, next: nat): Option<Lowered> {
    LowerAll(expr, AllCompleted(nodes), next, NoCycle)
  }

  /** An accepted program's translation is the intended one exactly when every cycle that is translated has a block. */
  lemma LoweringIsIntended(expr: ExpressionCode, nodes: seq<Node>, next: nat)
    requires LowerAll(expr, nodes, next, NoCycle).Some?
    ensures LowerAll(expr, nodes, next, NoCycle) == LowerIntended(expr, nodes, next) <==> AllHaveBlocks(nodes)
  {
    AllLonger(expr, nodes, next, NoCycle, next, NoCycle);
    if AllHaveBlocks(nodes) {
      AllSame(expr, nodes, next, NoCycle);
    }
  }

  /** The intended code of every accepted program whose breaks are inside cycles means what the program means. */
  lemma IntendedMeaning<S>(m: Meaning<S>, expr: ExpressionCode, nodes: seq<Node>, next: nat, s: S, s': S)
    requires LowerIntended(expr, nodes, next).Some? && AllScoped(nodes)
    ensures Halts(m, LowerIntended(expr, nodes, next).value.code, s, s') <==> Finishes(m, expr, nodes, s, s')
    ensures AllSettled(expr, nodes) ==>
              (Halts(m, LowerIntended(expr, nodes, next).value.code, s, s') <==> FinishesAsMeant(m, expr, nodes, s, s'))
  {
    hide AllSettled, FinishesAsMeant;
    if AllSettled(expr, nodes) {
      SettledFinishes(m, expr, nodes, s, s');
    }
    AllFacts(nodes);
    ProgramMeaning(m, expr, AllCompleted(nodes), next, s, s');
    forall fuel: nat
      ensures ExecAll(m, expr, AllCompleted(nodes), s, fuel) == ExecAll(m, expr, nodes, s, fuel)
    {
      AllMeans(m, expr, nodes, s, fuel);
    }
    hide ExecAll;
    if Finishes(m, expr, nodes, s, s') {
      var fuel: nat :| ExecAll(m, expr, nodes, s, fuel) == Normal(s');
      assert ExecAll(m, expr, AllCompleted(nodes), s, fuel) == Normal(s');
    }
    if Finishes(m, expr, AllCompleted(nodes), s, s') {
      var fuel: nat :| ExecAll(m, expr, AllCompleted(nodes), s, fuel) == Normal(s');
      assert ExecAll(m, expr, nodes, s, fuel) == Normal(s');
    }
  }
}
