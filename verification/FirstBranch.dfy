/** Groups of clauses as they are meant: the first clause whose condition holds runs, otherwise the else, and nothing after it. */
module FirstBranch {
  import opened ByteCode
  import opened Pseudo
  import opened Syntax
  import opened Tokens
  import opened LoweringSpec
  import opened StructuredMeaning

  // ----- the clause that is meant to run -----

  /** The first clause whose condition holds, or the first else before one; |clauses| when there is neither. */
  function Chosen<S>(m: Meaning<S>, expr: ExpressionCode, clauses: seq<Clause>, s: S): (k: nat)
    ensures k <= |clauses|
  {
    if clauses == [] || clauses[0].kind == Else || m.test(Ask(m, expr, clauses[0].tokens, s)) then 0
    else 1 + Chosen(m, expr, clauses[1..], m.drop(Ask(m, expr, clauses[0].tokens, s)))
  }

  /** The state in which the clause chosen starts to run, or the group is left: the conditions up to it have been computed. */
  function Asked<S>(m: Meaning<S>, expr: ExpressionCode, clauses: seq<Clause>, s: S): S {
    if clauses == [] || clauses[0].kind == Else then s
    else
      var s1 := Ask(m, expr, clauses[0].tokens, s);
      if m.test(s1) then m.drop(s1) else Asked(m, expr, clauses[1..], m.drop(s1))
  }

  /** One branch of a group, the one chosen. */
  function ExecChosen<S>(m: Meaning<S>, expr: ExpressionCode, clauses: seq<Clause>, s: S, fuel: nat): Outcome<S> {
    var k := Chosen(m, expr, clauses, s);
    if k == |clauses| then Normal(Asked(m, expr, clauses, s)) else ExecBranch(m, expr, clauses[k], Asked(m, expr, clauses, s), fuel)
  }

  // ----- the meaning of statements with such groups -----

  function MeantNode<S>(m: Meaning<S>, expr: ExpressionCode, n: Node, s: S, fuel: nat): Outcome<S>
    decreases fuel, n, 0
  {
    match n
    case Expression(tokens) => ExecExpression(m, expr, tokens, s)
    case ScopeMark(opens) => Normal(m.act(Op(if opens then PushFrame else PopFrame), s))
    case Block(children) => MeantAll(m, expr, children, s, fuel)
    case IfGroup(clauses) => if clauses == [] then Normal(s) else MeantIf(m, expr, clauses, s, fuel)
    case WhileCycle(header, body) => MeantWhile(m, expr, header, body, s, fuel)
  }

  function MeantAll<S>(m: Meaning<S>, expr: ExpressionCode, nodes: seq<Node>, s: S, fuel: nat): Outcome<S>
    decreases fuel, nodes, 0
  {
    if nodes == [] then Normal(s)
    else
      match MeantNode(m, expr, nodes[0], s, fuel)
      case Normal(s') => MeantAll(m, expr, nodes[1..], s', fuel)
      case o => o
  }

  function MeantBranch<S>(m: Meaning<S>, expr: ExpressionCode, c: Clause, s: S, fuel: nat): Outcome<S>
    decreases fuel, c, 0
  {
    if LineOf(c) != [] then ExecExpression(m, expr, LineOf(c), s) else MeantAll(m, expr, c.body, s, fuel)
  }

  /** The clause chosen is the only one that runs; a block behind the last clause's own line comes afterwards. */
  function MeantIf<S>(m: Meaning<S>, expr: ExpressionCode, clauses: seq<Clause>, s: S, fuel: nat): Outcome<S>
    requires clauses != []
    decreases fuel, clauses, 1
  {
    var k, last := Chosen(m, expr, clauses, s), clauses[|clauses| - 1];
    match if k == |clauses| then Normal(Asked(m, expr, clauses, s)) else MeantBranch(m, expr, clauses[k], Asked(m, expr, clauses, s), fuel)
    case Normal(s') => if LineOf(last) == [] then Normal(s') else MeantAll(m, expr, last.body, s', fuel)
    case o => o
  }

  function MeantLoop<S>(m: Meaning<S>, expr: ExpressionCode, header: seq<Token>, body: seq<Node>, s: S, fuel: nat): Outcome<S>
    decreases fuel, body, 1
  {
    if fuel == 0 then Unfinished
    else
      var s1 := Ask(m, expr, header, s);
      if !m.test(s1) then Normal(m.drop(s1))
      else
        var line := StatementTokens(header);
        var o := if line != [] then ExecExpression(m, expr, line, m.drop(s1)) else MeantAll(m, expr, body, m.drop(s1), fuel - 1);
        match o
        case Normal(s') => MeantLoop(m, expr, header, body, s', fuel - 1)
        case Continued(s') => MeantLoop(m, expr, header, body, s', fuel - 1)
        case Broke(s') => Normal(s')
        case Unfinished => Unfinished
  }

  function MeantWhile<S>(m: Meaning<S>, expr: ExpressionCode, header: seq<Token>, body: seq<Node>, s: S, fuel: nat): Outcome<S>
    decreases fuel, body, 2
  {
    match MeantLoop(m, expr, header, body, s, fuel)
    case Normal(s') => if StatementTokens(header) == [] then Normal(s') else MeantAll(m, expr, body, s', fuel)
    case o => o
  }

  // ----- statements that can come to their end, and statements that do nothing -----

  /** Some choice of conditions leads to the end of the statement, and not out of it by a break or continue. */
  predicate Completes(n: Node)
    decreases n, 0
  {
    match n
    case Expression(tokens) => !IsBreak(tokens) && !IsContinue(tokens)
    case ScopeMark(_) => true
    case Block(children) => AllComplete(children)
    case IfGroup(clauses) => clauses == [] || IfCompletes(clauses)
    case WhileCycle(header, body) => StatementTokens(header) == [] || AllComplete(body)
  }

  predicate AllComplete(nodes: seq<Node>)
    decreases nodes, 0
  {
    nodes == [] || (Completes(nodes[0]) && AllComplete(nodes[1..]))
  }

  predicate BranchCompletes(c: Clause)
    decreases c, 0
  {
    if LineOf(c) != [] then !IsBreak(LineOf(c)) && !IsContinue(LineOf(c)) else AllComplete(c.body)
  }

  predicate ClausesComplete(clauses: seq<Clause>)
    decreases clauses, 0
  {
    if clauses == [] then true
    else if clauses[0].kind == Else then BranchCompletes(clauses[0]) && ClausesComplete(clauses[1..])
    else BranchCompletes(clauses[0]) || ClausesComplete(clauses[1..])
  }

  predicate IfCompletes(clauses: seq<Clause>)
    requires clauses != []
    decreases clauses, 1
  {
    var last := clauses[|clauses| - 1];
    ClausesComplete(clauses) && (LineOf(last) == [] || AllComplete(last.body))
  }

  /** The statement computes no condition and has no code. */
  predicate Silent(expr: ExpressionCode, n: Node)
    decreases n, 0
  {
    match n
    case Expression(tokens) => !IsBreak(tokens) && !IsContinue(tokens) && expr(tokens) == []
    case ScopeMark(_) => false
    case Block(children) => AllSilent(expr, children)
    case IfGroup(clauses) => clauses == [] || IfSilent(expr, clauses)
    case WhileCycle(_, _) => false
  }

  predicate AllSilent(expr: ExpressionCode, nodes: seq<Node>)
    decreases nodes, 0
  {
    nodes == [] || (Silent(expr, nodes[0]) && AllSilent(expr, nodes[1..]))
  }

  predicate BranchSilent(expr: ExpressionCode, c: Clause)
    decreases c, 0
  {
    if LineOf(c) != [] then !IsBreak(LineOf(c)) && !IsContinue(LineOf(c)) && expr(LineOf(c)) == [] else AllSilent(expr, c.body)
  }

  predicate ClausesSilent(expr: ExpressionCode, clauses: seq<Clause>)
    decreases clauses, 0
  {
    clauses == [] || (clauses[0].kind == Else && BranchSilent(expr, clauses[0]) && ClausesSilent(expr, clauses[1..]))
  }

  predicate IfSilent(expr: ExpressionCode, clauses: seq<Clause>)
    requires clauses != []
    decreases clauses, 1
  {
    var last := clauses[|clauses| - 1];
    ClausesSilent(expr, clauses) && (LineOf(last) == [] || AllSilent(expr, last.body))
  }

  // ----- when only the chosen clause runs -----

  /** Behind the first else nothing is reached that does anything. */
  predicate Settled(expr: ExpressionCode, clauses: seq<Clause>)
    decreases clauses
  {
    if clauses == [] then true
    else if clauses[0].kind == Else then !BranchCompletes(clauses[0]) || ClausesSilent(expr, clauses[1..])
    else Settled(expr, clauses[1..])
  }

  /** The else, if any, is the last clause. */
  predicate ElseIsLast(clauses: seq<Clause>) {
    forall i :: 0 <= i < |clauses| - 1 ==> clauses[i].kind != Else
  }

  /** On the kinds of the clauses: settled when the else is last, and only then if branches have code and do not leave the group. */
  lemma {:induction false} ElseLastSettles(expr: ExpressionCode, clauses: seq<Clause>)
    ensures ElseIsLast(clauses) ==> Settled(expr, clauses)
    ensures (forall c :: c in clauses ==> BranchCompletes(c) && !BranchSilent(expr, c)) && Settled(expr, clauses) ==> ElseIsLast(clauses)
    decreases |clauses|
  {
    hide BranchCompletes, BranchSilent;
    if clauses != [] {
      var c, rest := clauses[0], clauses[1..];
      assert forall i :: 0 <= i < |rest| ==> rest[i] == clauses[i + 1];
      assert ElseIsLast(clauses) ==> ElseIsLast(rest) by {
        assert forall i :: 0 <= i < |rest| - 1 ==> rest[i] == clauses[i + 1];
      }
      assert (c.kind != Else || rest == []) && ElseIsLast(rest) ==> ElseIsLast(clauses) by {
        assert forall i :: 0 < i < |clauses| ==> clauses[i] == rest[i - 1];
      }
      ElseLastSettles(expr, rest);
      if rest != [] {
        assert rest[0] in clauses && c in clauses;
      }
    }
  }

  // ----- nothing but the chosen clause runs in a settled group -----

  lemma {:induction false} NeverNormal<S>(m: Meaning<S>, expr: ExpressionCode, n: Node, s: S, fuel: nat)
    requires !Completes(n)
    ensures !ExecNode(m, expr, n, s, fuel).Normal?
    decreases n, 0
  {
    match n
    case Expression(_) =>
    case Block(children) => NeverAllNormal(m, expr, children, s, fuel);
    case IfGroup(clauses) =>
      var last := clauses[|clauses| - 1];
      var o := ExecClauses(m, expr, clauses, s, fuel);
      if !ClausesComplete(clauses) {
        NeverClausesNormal(m, expr, clauses, s, fuel);
      } else if o.Normal? {
        NeverAllNormal(m, expr, last.body, o.s, fuel);
      }
    case WhileCycle(header, body) =>
      var o := ExecLoop(m, expr, header, body, s, fuel);
      if o.Normal? {
        NeverAllNormal(m, expr, body, o.s, fuel);
      }
  }

  lemma {:induction false} NeverAllNormal<S>(m: Meaning<S>, expr: ExpressionCode, nodes: seq<Node>, s: S, fuel: nat)
    requires !AllComplete(nodes)
    ensures !ExecAll(m, expr, nodes, s, fuel).Normal?
    decreases nodes, 0
  {
    var o := ExecNode(m, expr, nodes[0], s, fuel);
    if !Completes(nodes[0]) {
      NeverNormal(m, expr, nodes[0], s, fuel);
    } else if o.Normal? {
      NeverAllNormal(m, expr, nodes[1..], o.s, fuel);
    }
  }

  lemma {:induction false} NeverBranchNormal<S>(m: Meaning<S>, expr: ExpressionCode, c: Clause, s: S, fuel: nat)
    requires !BranchCompletes(c)
    ensures !ExecBranch(m, expr, c, s, fuel).Normal?
    decreases c, 0
  {
    if LineOf(c) == [] {
      NeverAllNormal(m, expr, c.body, s, fuel);
    }
  }

  lemma {:induction false} NeverClausesNormal<S>(m: Meaning<S>, expr: ExpressionCode, clauses: seq<Clause>, s: S, fuel: nat)
    requires !ClausesComplete(clauses)
    ensures !ExecClauses(m, expr, clauses, s, fuel).Normal?
    decreases clauses, 0
  {
    var c := clauses[0];
    if c.kind == Else {
      var o := ExecBranch(m, expr, c, s, fuel);
      if !BranchCompletes(c) {
        NeverBranchNormal(m, expr, c, s, fuel);
      } else if o.Normal? {
        NeverClausesNormal(m, expr, clauses[1..], o.s, fuel);
      }
    } else {
      var s2 := m.drop(Ask(m, expr, c.tokens, s));
      NeverBranchNormal(m, expr, c, s2, fuel);
      NeverClausesNormal(m, expr, clauses[1..], s2, fuel);
    }
  }

  lemma {:induction false} SilentDoesNothing<S>(m: Meaning<S>, expr: ExpressionCode, n: Node, s: S, fuel: nat)
    requires Silent(expr, n)
    ensures ExecNode(m, expr, n, s, fuel) == Normal(s)
    decreases n, 0
  {
    match n
    case Expression(_) =>
    case Block(children) => AllSilentDoNothing(m, expr, children, s, fuel);
    case IfGroup(clauses) =>
      if clauses != [] {
        SilentClausesDoNothing(m, expr, clauses, s, fuel);
        var last := clauses[|clauses| - 1];
        if LineOf(last) != [] {
          AllSilentDoNothing(m, expr, last.body, s, fuel);
        }
      }
  }

  lemma {:induction false} AllSilentDoNothing<S>(m: Meaning<S>, expr: ExpressionCode, nodes: seq<Node>, s: S, fuel: nat)
    requires AllSilent(expr, nodes)
    ensures ExecAll(m, expr, nodes, s, fuel) == Normal(s)
    decreases nodes, 0
  {
    if nodes != [] {
      SilentDoesNothing(m, expr, nodes[0], s, fuel);
      AllSilentDoNothing(m, expr, nodes[1..], s, fuel);
    }
  }

  lemma {:induction false} SilentClausesDoNothing<S>(m: Meaning<S>, expr: ExpressionCode, clauses: seq<Clause>, s: S, fuel: nat)
    requires ClausesSilent(expr, clauses)
    ensures ExecClauses(m, expr, clauses, s, fuel) == Normal(s)
    decreases clauses, 0
  {
    if clauses != [] {
      if LineOf(clauses[0]) == [] {
        AllSilentDoNothing(m, expr, clauses[0].body, s, fuel);
      }
      SilentClausesDoNothing(m, expr, clauses[1..], s, fuel);
    }
  }

  /** In a settled group exactly the chosen clause runs, whatever the operations do. */
  lemma {:induction false} OneBranchRuns<S>(m: Meaning<S>, expr: ExpressionCode, clauses: seq<Clause>, s: S, fuel: nat)
    requires Settled(expr, clauses)
    ensures ExecClauses(m, expr, clauses, s, fuel) == ExecChosen(m, expr, clauses, s, fuel)
    decreases |clauses|
  {
    hide ExecBranch, BranchCompletes, ClausesSilent;
    if clauses != [] {
      var c, rest := clauses[0], clauses[1..];
      if c.kind == Else {
        var o := ExecBranch(m, expr, c, s, fuel);
        if !BranchCompletes(c) {
          NeverBranchNormal(m, expr, c, s, fuel);
        } else if o.Normal? {
          SilentClausesDoNothing(m, expr, rest, o.s, fuel);
        }
      } else {
        var s1 := Ask(m, expr, c.tokens, s);
        if !m.test(s1) {
          OneBranchRuns(m, expr, rest, m.drop(s1), fuel);
        }
      }
    }
  }

  // ----- in any other group a second branch can run -----

  /** Conditions come out as told in advance, and everything done is counted. */
  datatype Record = Record(answers: seq<bool>, count: nat)

  function Recorder(): Meaning<Record> {
    Meaning((op, s: Record) => s.(count := s.count + 1),
            (s: Record) => s.answers != [] && s.answers[0],
            (s: Record) => Record(if s.answers == [] then [] else s.answers[1..], s.count + 1))
  }

  lemma {:induction false} RecordedOps(ops: seq<PseudoOp>, s: Record)
    ensures RunOps(Recorder(), ops, s) == Record(s.answers, s.count + |ops|)
    decreases |ops|
  {
    if ops != [] {
      RecordedOps(ops[1..], Recorder().act(ops[0], s));
    }
  }

  /** How many operations it takes to compute a condition. */
  function Effort(expr: ExpressionCode, header: seq<Token>): nat {
    |expr(ConditionTokens(header))|
  }

  lemma Answered(expr: ExpressionCode, header: seq<Token>, answers: seq<bool>, count: nat)
    ensures var s1 := Ask(Recorder(), expr, header, Record(answers, count));
            && (Recorder().test(s1) <==> answers != [] && answers[0])
            && Recorder().drop(s1) == Record(if answers == [] then [] else answers[1..], count + Effort(expr, header) + 1)
  {
    RecordedOps(expr(ConditionTokens(header)), Record(answers, count));
  }

  /** Answers that lead to the end of a statement that has one; cycles are not entered. */
  function Path(n: Node): seq<bool>
    decreases n, 0
  {
    match n
    case Block(children) => PathAll(children)
    case IfGroup(clauses) => if clauses == [] then [] else PathIf(clauses)
    case WhileCycle(header, body) => [false] + (if StatementTokens(header) == [] then [] else PathAll(body))
    case _ => []
  }

  function PathAll(nodes: seq<Node>): seq<bool>
    decreases nodes, 0
  {
    if nodes == [] then [] else Path(nodes[0]) + PathAll(nodes[1..])
  }

  function PathBranch(c: Clause): seq<bool>
    decreases c, 0
  {
    if LineOf(c) != [] then [] else PathAll(c.body)
  }

  function PathClauses(clauses: seq<Clause>): seq<bool>
    decreases clauses, 0
  {
    if clauses == [] then []
    else if clauses[0].kind == Else then PathBranch(clauses[0]) + PathClauses(clauses[1..])
    else if BranchCompletes(clauses[0]) then [true] + PathBranch(clauses[0])
    else [false] + PathClauses(clauses[1..])
  }

  function PathIf(clauses: seq<Clause>): seq<bool>
    requires clauses != []
    decreases clauses, 1
  {
    var last := clauses[|clauses| - 1];
    PathClauses(clauses) + if LineOf(last) == [] then [] else PathAll(last.body)
  }

  lemma Regrouped<T>(a: seq<T>, b: seq<T>, c: seq<T>)
    ensures a + b + c == a + (b + c)
  {
  }

  lemma Next<T>(first: T, rest: seq<T>, u: seq<T>)
    ensures ([first] + rest + u)[0] == first && ([first] + rest + u)[1..] == rest + u
  {
  }

  /** The statement comes to its end, using up the answers before u. */
  ghost predicate Ends(o: Outcome<Record>, u: seq<bool>) {
    o.Normal? && o.s.answers == u
  }

  lemma {:induction false} FollowNode(expr: ExpressionCode, n: Node, u: seq<bool>, count: nat)
    requires Completes(n)
    ensures Ends(ExecNode(Recorder(), expr, n, Record(Path(n) + u, count), 1), u)
    decreases n, 0
  {
    match n
    case Expression(tokens) =>
      assert [] + u == u;
      RecordedOps(expr(tokens), Record(u, count));
    case ScopeMark(_) => assert [] + u == u;
    case Block(children) => FollowAll(expr, children, u, count);
    case IfGroup(clauses) =>
      if clauses == [] {
        assert [] + u == u;
      } else {
        FollowIf(expr, clauses, u, count);
      }
    case WhileCycle(header, body) => FollowWhile(expr, header, body, u, count);
  }

  lemma {:induction false} FollowWhile(expr: ExpressionCode, header: seq<Token>, body: seq<Node>, u: seq<bool>, count: nat)
    requires StatementTokens(header) == [] || AllComplete(body)
    ensures var p := [false] + (if StatementTokens(header) == [] then [] else PathAll(body));
            Ends(ExecWhile(Recorder(), expr, header, body, Record(p + u, count), 1), u)
    decreases body, 1
  {
    var tail := if StatementTokens(header) == [] then [] else PathAll(body);
    var answers := [false] + tail + u;
    Next(false, tail, u);
    Answered(expr, header, answers, count);
    if StatementTokens(header) == [] {
      assert tail + u == u;
    } else {
      FollowAll(expr, body, u, count + Effort(expr, header) + 1);
    }
  }

  lemma {:induction false} FollowAll(expr: ExpressionCode, nodes: seq<Node>, u: seq<bool>, count: nat)
    requires AllComplete(nodes)
    ensures Ends(ExecAll(Recorder(), expr, nodes, Record(PathAll(nodes) + u, count), 1), u)
    decreases nodes, 0
  {
    hide ExecNode, Path, Completes;
    if nodes == [] {
      assert [] + u == u;
    } else {
      var first, rest := Path(nodes[0]), PathAll(nodes[1..]);
      Regrouped(first, rest, u);
      FollowNode(expr, nodes[0], rest + u, count);
      var o := ExecNode(Recorder(), expr, nodes[0], Record(PathAll(nodes) + u, count), 1);
      assert o.s == Record(rest + u, o.s.count);
      FollowAll(expr, nodes[1..], u, o.s.count);
    }
  }

  lemma {:induction false} FollowBranch(expr: ExpressionCode, c: Clause, u: seq<bool>, count: nat)
    requires BranchCompletes(c)
    ensures Ends(ExecBranch(Recorder(), expr, c, Record(PathBranch(c) + u, count), 1), u)
    decreases c, 0
  {
    if LineOf(c) != [] {
      assert [] + u == u;
      RecordedOps(expr(LineOf(c)), Record(u, count));
    } else {
      FollowAll(expr, c.body, u, count);
    }
  }

  lemma {:induction false} FollowClauses(expr: ExpressionCode, clauses: seq<Clause>, u: seq<bool>, count: nat)
    requires ClausesComplete(clauses)
    ensures Ends(ExecClauses(Recorder(), expr, clauses, Record(PathClauses(clauses) + u, count), 1), u)
    decreases clauses, 0
  {
    hide ExecBranch, PathBranch, BranchCompletes;
    if clauses == [] {
      assert [] + u == u;
    } else {
      var c, rest := clauses[0], PathClauses(clauses[1..]);
      var answers := PathClauses(clauses) + u;
      if c.kind == Else {
        Regrouped(PathBranch(c), rest, u);
        FollowBranch(expr, c, rest + u, count);
        var o := ExecBranch(Recorder(), expr, c, Record(answers, count), 1);
        assert o.s == Record(rest + u, o.s.count);
        FollowClauses(expr, clauses[1..], u, o.s.count);
      } else {
        Answered(expr, c.tokens, answers, count);
        if BranchCompletes(c) {
          Next(true, PathBranch(c), u);
          FollowBranch(expr, c, u, count + Effort(expr, c.tokens) + 1);
        } else {
          Next(false, rest, u);
          FollowClauses(expr, clauses[1..], u, count + Effort(expr, c.tokens) + 1);
        }
      }
    }
  }

  lemma {:induction false} FollowIf(expr: ExpressionCode, clauses: seq<Clause>, u: seq<bool>, count: nat)
    requires clauses != [] && IfCompletes(clauses)
    ensures Ends(ExecIf(Recorder(), expr, clauses, Record(PathIf(clauses) + u, count), 1), u)
    decreases clauses, 1
  {
    hide ExecClauses, PathClauses, ClausesComplete;
    var last := clauses[|clauses| - 1];
    var tail := if LineOf(last) == [] then [] else PathAll(last.body);
    Regrouped(PathClauses(clauses), tail, u);
    FollowClauses(expr, clauses, tail + u, count);
    var o := ExecClauses(Recorder(), expr, clauses, Record(PathIf(clauses) + u, count), 1);
    if LineOf(last) == [] {
      assert tail + u == u;
    } else {
      assert o.s == Record(PathAll(last.body) + u, o.s.count);
      FollowAll(expr, last.body, u, o.s.count);
    }
  }

  /** The count never falls, and rises in whatever is not silent. */
  ghost predicate Counts(o: Outcome<Record>, count: nat, silent: bool) {
    && (!o.Unfinished? ==> o.s.count >= count)
    && (o.Normal? && !silent ==> o.s.count > count)
  }

  lemma {:induction false} NodeCounts(expr: ExpressionCode, n: Node, s: Record, fuel: nat)
    ensures Counts(ExecNode(Recorder(), expr, n, s, fuel), s.count, Silent(expr, n))
    decreases fuel, n, 0
  {
    match n
    case Expression(tokens) => RecordedOps(expr(tokens), s);
    case ScopeMark(_) =>
    case Block(children) => AllCount(expr, children, s, fuel);
    case IfGroup(clauses) =>
      if clauses != [] {
        IfCounts(expr, clauses, s, fuel);
      }
    case WhileCycle(header, body) =>
      LoopCounts(expr, header, body, s, fuel);
      var o := ExecLoop(Recorder(), expr, header, body, s, fuel);
      if o.Normal? && StatementTokens(header) != [] {
        AllCount(expr, body, o.s, fuel);
      }
  }

  lemma {:induction false} AllCount(expr: ExpressionCode, nodes: seq<Node>, s: Record, fuel: nat)
    ensures Counts(ExecAll(Recorder(), expr, nodes, s, fuel), s.count, AllSilent(expr, nodes))
    decreases fuel, nodes, 0
  {
    hide ExecNode, Silent;
    if nodes != [] {
      NodeCounts(expr, nodes[0], s, fuel);
      var o := ExecNode(Recorder(), expr, nodes[0], s, fuel);
      if o.Normal? {
        AllCount(expr, nodes[1..], o.s, fuel);
      }
    }
  }

  lemma {:induction false} BranchCounts(expr: ExpressionCode, c: Clause, s: Record, fuel: nat)
    ensures Counts(ExecBranch(Recorder(), expr, c, s, fuel), s.count, BranchSilent(expr, c))
    decreases fuel, c, 0
  {
    if LineOf(c) != [] {
      RecordedOps(expr(LineOf(c)), s);
    } else {
      AllCount(expr, c.body, s, fuel);
    }
  }

  lemma {:induction false} ClausesCount(expr: ExpressionCode, clauses: seq<Clause>, s: Record, fuel: nat)
    ensures Counts(ExecClauses(Recorder(), expr, clauses, s, fuel), s.count, ClausesSilent(expr, clauses))
    decreases fuel, clauses, 0
  {
    hide ExecBranch, BranchSilent;
    if clauses != [] {
      var c := clauses[0];
      if c.kind == Else {
        BranchCounts(expr, c, s, fuel);
        var o := ExecBranch(Recorder(), expr, c, s, fuel);
        if o.Normal? {
          ClausesCount(expr, clauses[1..], o.s, fuel);
        }
      } else {
        Answered(expr, c.tokens, s.answers, s.count);
        var s2 := Recorder().drop(Ask(Recorder(), expr, c.tokens, s));
        BranchCounts(expr, c, s2, fuel);
        ClausesCount(expr, clauses[1..], s2, fuel);
      }
    }
  }

  lemma {:induction false} IfCounts(expr: ExpressionCode, clauses: seq<Clause>, s: Record, fuel: nat)
    requires clauses != []
    ensures Counts(ExecIf(Recorder(), expr, clauses, s, fuel), s.count, IfSilent(expr, clauses))
    decreases fuel, clauses, 1
  {
    hide ExecClauses, ClausesSilent, ExecAll, AllSilent;
    ClausesCount(expr, clauses, s, fuel);
    var o, last := ExecClauses(Recorder(), expr, clauses, s, fuel), clauses[|clauses| - 1];
    if o.Normal? && LineOf(last) != [] {
      AllCount(expr, last.body, o.s, fuel);
    }
  }

  lemma {:induction false} LoopCounts(expr: ExpressionCode, header: seq<Token>, body: seq<Node>, s: Record, fuel: nat)
    ensures var o := ExecLoop(Recorder(), expr, header, body, s, fuel); !o.Unfinished? ==> o.s.count > s.count
    decreases fuel, body, 1
  {
    hide ExecAll, ExecExpression;
    if fuel > 0 {
      Answered(expr, header, s.answers, s.count);
      var line, s2 := StatementTokens(header), Recorder().drop(Ask(Recorder(), expr, header, s));
      var o := if line != [] then ExecExpression(Recorder(), expr, line, s2) else ExecAll(Recorder(), expr, body, s2, fuel - 1);
      if line != [] {
        LineCounts(expr, line, s2);
      } else {
        AllCount(expr, body, s2, fuel - 1);
      }
      if o.Normal? || o.Continued? {
        LoopCounts(expr, header, body, o.s, fuel - 1);
      }
    }
  }

  lemma LineCounts(expr: ExpressionCode, line: seq<Token>, s: Record)
    ensures Counts(ExecExpression(Recorder(), expr, line, s), s.count, !IsBreak(line) && !IsContinue(line) && expr(line) == [])
  {
    RecordedOps(expr(line), s);
  }

  /** Some answers make a second branch of a group that is not settled run. */
  function TwoBranches(clauses: seq<Clause>): seq<bool> {
    if clauses == [] then [] else if clauses[0].kind == Else then PathBranch(clauses[0]) else [false] + TwoBranches(clauses[1..])
  }

  lemma {:induction false} SecondBranchRuns(expr: ExpressionCode, clauses: seq<Clause>, count: nat)
    requires !Settled(expr, clauses)
    ensures var s := Record(TwoBranches(clauses), count);
            ExecClauses(Recorder(), expr, clauses, s, 1) != ExecChosen(Recorder(), expr, clauses, s, 1)
    decreases |clauses|
  {
    hide ExecBranch, BranchCompletes, ClausesSilent, PathBranch;
    var c, rest, answers := clauses[0], clauses[1..], TwoBranches(clauses);
    if c.kind == Else {
      assert PathBranch(c) + [] == PathBranch(c);
      FollowBranch(expr, c, [], count);
      var o := ExecBranch(Recorder(), expr, c, Record(answers, count), 1);
      ClausesCount(expr, rest, o.s, 1);
    } else {
      Answered(expr, c.tokens, answers, count);
      assert answers[1..] == TwoBranches(rest);
      SecondBranchRuns(expr, rest, count + Effort(expr, c.tokens) + 1);
    }
  }

  /** Exactly in a settled group the clause chosen is the only one that runs, for all outcomes of conditions. */
  lemma OneBranchIsExact(expr: ExpressionCode, clauses: seq<Clause>)
    ensures Settled(expr, clauses)
            <==> forall s, fuel :: ExecClauses(Recorder(), expr, clauses, s, fuel) == ExecChosen(Recorder(), expr, clauses, s, fuel)
  {
    hide ExecClauses, ExecChosen, Settled;
    if Settled(expr, clauses) {
      forall s, fuel
        ensures ExecClauses(Recorder(), expr, clauses, s, fuel) == ExecChosen(Recorder(), expr, clauses, s, fuel)
      {
        OneBranchRuns(Recorder(), expr, clauses, s, fuel);
      }
    } else {
      SecondBranchRuns(expr, clauses, 0);
    }
  }

  // ----- blocks -----

  /** No clause before the last has a block besides its own line. Only the last clause's block is handled after its line. */
  predicate BlocksKept(clauses: seq<Clause>) {
    forall i :: 0 <= i < |clauses| - 1 ==> LineOf(clauses[i]) == [] || clauses[i].body == []
  }

  /** Of an else with a line of its own that is not the last clause, the block is ignored: any other in its place gives the same code. */
  lemma {:induction false} BlockIsDropped(expr: ExpressionCode, clauses: seq<Clause>, i: nat, other: seq<Node>, next: nat, targets: Targets)
    requires i < |clauses| - 1 && clauses[i].kind == Else && LineOf(clauses[i]) != []
    ensures LowerIf(expr, clauses[i := clauses[i].(body := other)], next, targets) == LowerIf(expr, clauses, next, targets)
  {
    hide LowerClauses, LowerAll, LineOf;
    var changed := clauses[i := clauses[i].(body := other)];
    assert GroupOk(changed) == GroupOk(clauses) by {
      assert forall k :: 0 <= k < |clauses| ==> changed[k].kind == clauses[k].kind;
    }
    assert changed[|clauses| - 1] == clauses[|clauses| - 1];
    DroppedFromClauses(expr, clauses, i, other, next + 1, targets, Some(next));
  }

  lemma {:induction false} DroppedFromClauses(expr: ExpressionCode, clauses: seq<Clause>, i: nat, other: seq<Node>, next: nat,
                                              targets: Targets, end: Option<nat>)
    requires i < |clauses| && clauses[i].kind == Else && LineOf(clauses[i]) != []
    ensures LowerClauses(expr, clauses[i := clauses[i].(body := other)], next, targets, end)
         == LowerClauses(expr, clauses, next, targets, end)
    decreases i
  {
    hide ConditionOps, ClauseOk;
    var changed := clauses[i := clauses[i].(body := other)];
    var c := clauses[0];
    if i == 0 {
      assert changed[1..] == clauses[1..] && changed[0] == c.(body := other);
      assert ClauseOk(c, end.Some?) && ClauseOk(changed[0], end.Some?) by {
        ElseIsOk(c, end.Some?);
        ElseIsOk(changed[0], end.Some?);
      }
      SameLine(c, other);
    } else {
      assert changed[0] == c && changed[1..] == clauses[1..][i - 1 := clauses[i].(body := other)];
      var start := if c.kind == Else then next else next + 1;
      var branch := LowerBranch(expr, c, start, targets);
      if branch.Some? {
        DroppedFromClauses(expr, clauses[1..], i - 1, other, branch.value.next, targets, end);
      }
    }
  }

  lemma ElseIsOk(c: Clause, several: bool)
    requires c.kind == Else
    ensures ClauseOk(c, several)
  {
  }

  lemma SameLine(c: Clause, other: seq<Node>)
    ensures LineOf(c.(body := other)) == LineOf(c)
  {
  }

  lemma {:induction false} AcceptedClauses(expr: ExpressionCode, clauses: seq<Clause>, next: nat, targets: Targets, end: nat)
    requires LowerClauses(expr, clauses, next, targets, Some(end)).Some?
    ensures forall i :: 0 <= i < |clauses| ==> ClauseOk(clauses[i], true)
    decreases |clauses|
  {
    hide LowerBranch, ClauseOk, ConditionOps;
    if clauses != [] {
      var c, rest := clauses[0], clauses[1..];
      var branch := LowerBranch(expr, c, if c.kind == Else then next else next + 1, targets).value;
      AcceptedClauses(expr, rest, branch.next, targets, end);
      assert forall i :: 0 < i < |clauses| ==> clauses[i] == rest[i - 1];
    }
  }

  /**
   * What the check on groups lets through. Exactly in a settled group the clause chosen is the only one that runs; exactly when no else before
   * the last clause has both a line and a block, no block is dropped; with the else at the end the group is settled and no block is dropped.
   */
  lemma AcceptedGroup(expr: ExpressionCode, clauses: seq<Clause>, next: nat, targets: Targets)
    requires clauses != [] && LowerIf(expr, clauses, next, targets).Some?
    ensures Settled(expr, clauses)
            <==> forall s, fuel :: ExecClauses(Recorder(), expr, clauses, s, fuel) == ExecChosen(Recorder(), expr, clauses, s, fuel)
    ensures BlocksKept(clauses)
            <==> forall i :: 0 <= i < |clauses| - 1 && clauses[i].kind == Else ==> LineOf(clauses[i]) == [] || clauses[i].body == []
    ensures ElseIsLast(clauses) ==> Settled(expr, clauses) && BlocksKept(clauses)
  {
    hide Settled, LineOf, LowerClauses, LowerAll, ConditionOk, ExecClauses, ExecChosen;
    OneBranchIsExact(expr, clauses);
    ElseLastSettles(expr, clauses);
    if |clauses| > 1 {
      AcceptedClauses(expr, clauses, next + 1, targets, next);
    }
  }

  // ----- whole programs -----

  /** All groups that can run are settled. */
  predicate SettledNode(expr: ExpressionCode, n: Node)
    decreases n, 0
  {
    match n
    case Expression(_) => true
    case ScopeMark(_) => true
    case Block(children) => AllSettled(expr, children)
    case IfGroup(clauses) => clauses == [] || IfSettled(expr, clauses)
    case WhileCycle(_, body) => AllSettled(expr, body)
  }

  predicate AllSettled(expr: ExpressionCode, nodes: seq<Node>)
    decreases nodes, 0
  {
    nodes == [] || (SettledNode(expr, nodes[0]) && AllSettled(expr, nodes[1..]))
  }

  predicate BranchSettled(expr: ExpressionCode, c: Clause)
    decreases c, 0
  {
    LineOf(c) != [] || AllSettled(expr, c.body)
  }

  predicate IfSettled(expr: ExpressionCode, clauses: seq<Clause>)
    requires clauses != []
    decreases clauses, 1
  {
    var last := clauses[|clauses| - 1];
    && Settled(expr, clauses) && (forall i :: 0 <= i < |clauses| ==> BranchSettled(expr, clauses[i]))
    && (LineOf(last) == [] || AllSettled(expr, last.body))
  }

  lemma {:induction false} NodeAsMeant<S>(m: Meaning<S>, expr: ExpressionCode, n: Node, s: S, fuel: nat)
    requires SettledNode(expr, n)
    ensures MeantNode(m, expr, n, s, fuel) == ExecNode(m, expr, n, s, fuel)
    decreases fuel, n, 0
  {
    hide ExecAll, ExecIf, ExecWhile, MeantAll, MeantIf, MeantWhile, IfSettled, AllSettled;
    match n
    case Expression(_) =>
    case ScopeMark(_) =>
    case Block(children) => AllAsMeant(m, expr, children, s, fuel);
    case IfGroup(clauses) =>
      if clauses != [] {
        IfAsMeant(m, expr, clauses, s, fuel);
      }
    case WhileCycle(header, body) => WhileAsMeant(m, expr, header, body, s, fuel);
  }

  lemma {:induction false} AllAsMeant<S>(m: Meaning<S>, expr: ExpressionCode, nodes: seq<Node>, s: S, fuel: nat)
    requires AllSettled(expr, nodes)
    ensures MeantAll(m, expr, nodes, s, fuel) == ExecAll(m, expr, nodes, s, fuel)
    decreases fuel, nodes, 0
  {
    hide ExecNode, MeantNode, SettledNode;
    if nodes != [] {
      NodeAsMeant(m, expr, nodes[0], s, fuel);
      var o := ExecNode(m, expr, nodes[0], s, fuel);
      if o.Normal? {
        AllAsMeant(m, expr, nodes[1..], o.s, fuel);
      }
    }
  }

  lemma {:induction false} BranchAsMeant<S>(m: Meaning<S>, expr: ExpressionCode, c: Clause, s: S, fuel: nat)
    requires BranchSettled(expr, c)
    ensures MeantBranch(m, expr, c, s, fuel) == ExecBranch(m, expr, c, s, fuel)
    decreases fuel, c, 0
  {
    if LineOf(c) == [] {
      AllAsMeant(m, expr, c.body, s, fuel);
    }
  }

  lemma {:induction false} IfAsMeant<S>(m: Meaning<S>, expr: ExpressionCode, clauses: seq<Clause>, s: S, fuel: nat)
    requires clauses != [] && IfSettled(expr, clauses)
    ensures MeantIf(m, expr, clauses, s, fuel) == ExecIf(m, expr, clauses, s, fuel)
    decreases fuel, clauses, 1
  {
    hide ExecClauses, ExecAll, ExecBranch, MeantAll, MeantBranch, Settled, Chosen, Asked, AllSettled, BranchSettled;
    OneBranchRuns(m, expr, clauses, s, fuel);
    var k, last := Chosen(m, expr, clauses, s), clauses[|clauses| - 1];
    if k < |clauses| {
      BranchAsMeant(m, expr, clauses[k], Asked(m, expr, clauses, s), fuel);
    }
    var o := ExecClauses(m, expr, clauses, s, fuel);
    if o.Normal? && LineOf(last) != [] {
      AllAsMeant(m, expr, last.body, o.s, fuel);
    }
  }

  lemma {:induction false} LoopAsMeant<S>(m: Meaning<S>, expr: ExpressionCode, header: seq<Token>, body: seq<Node>, s: S, fuel: nat)
    requires AllSettled(expr, body)
    ensures MeantLoop(m, expr, header, body, s, fuel) == ExecLoop(m, expr, header, body, s, fuel)
    decreases fuel, body, 1
  {
    hide ExecAll, ExecExpression, MeantAll, AllSettled;
    if fuel > 0 {
      var line, s2 := StatementTokens(header), m.drop(Ask(m, expr, header, s));
      AllAsMeant(m, expr, body, s2, fuel - 1);
      var o := if line != [] then ExecExpression(m, expr, line, s2) else ExecAll(m, expr, body, s2, fuel - 1);
      if o.Normal? || o.Continued? {
        LoopAsMeant(m, expr, header, body, o.s, fuel - 1);
      }
    }
  }

  lemma {:induction false} WhileAsMeant<S>(m: Meaning<S>, expr: ExpressionCode, header: seq<Token>, body: seq<Node>, s: S, fuel: nat)
    requires AllSettled(expr, body)
    ensures MeantWhile(m, expr, header, body, s, fuel) == ExecWhile(m, expr, header, body, s, fuel)
    decreases fuel, body, 2
  {
    hide ExecLoop, ExecAll, MeantLoop, MeantAll, AllSettled;
    LoopAsMeant(m, expr, header, body, s, fuel);
    var o := ExecLoop(m, expr, header, body, s, fuel);
    if o.Normal? {
      AllAsMeant(m, expr, body, o.s, fuel);
    }
  }

  /** The program, one branch of each group at a time, comes to its end in this state. */
  ghost predicate FinishesAsMeant<S>(m: Meaning<S>, expr: ExpressionCode, nodes: seq<Node>, s: S, s': S) {
    exists fuel: nat :: MeantAll(m, expr, nodes, s, fuel) == Normal(s')
  }
}
