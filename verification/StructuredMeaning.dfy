/** What statements mean by themselves, and what the flat labels-and-jumps code does. */
module StructuredMeaning {
  import opened ByteCode
  import opened Pseudo
  import opened Syntax
  import opened Tokens
  import opened LoweringSpec

  /** What a straight-line operation does to a state, how a computed condition is tested and how it is consumed. */
  datatype Meaning<!S> = Meaning(act: (PseudoOp, S) -> S, test: S -> bool, drop: S -> S)

  function RunOps<S>(m: Meaning<S>, ops: seq<PseudoOp>, s: S): S {
    if ops == [] then s else RunOps(m, ops[1..], m.act(ops[0], s))
  }

  // ----- structured execution -----

  /** Unfinished: more than fuel rounds of cycles were needed. */
  datatype Outcome<S> = Normal(s: S) | Broke(s: S) | Continued(s: S) | Unfinished

  function ConditionTokens(header: seq<Token>): seq<Token> {
    if header == [] then [] else SplitHeader(header).condition
  }

  function StatementTokens(header: seq<Token>): seq<Token> {
    if header == [] then [] else SplitHeader(header).statement
  }

  function ExecExpression<S>(m: Meaning<S>, expr: ExpressionCode, tokens: seq<Token>, s: S): Outcome<S> {
    if IsBreak(tokens) then Broke(s)
    else if IsContinue(tokens) then Continued(s)
    else Normal(RunOps(m, expr(tokens), s))
  }

  /** The state after a condition is computed. */
  function Ask<S>(m: Meaning<S>, expr: ExpressionCode, header: seq<Token>, s: S): S {
    RunOps(m, expr(ConditionTokens(header)), s)
  }

  function ExecNode<S>(m: Meaning<S>, expr: ExpressionCode, n: Node, s: S, fuel: nat): Outcome<S>
    decreases fuel, n, 0
  {
    match n
    case Expression(tokens) => ExecExpression(m, expr, tokens, s)
    case ScopeMark(opens) => Normal(m.act(Op(if opens then PushFrame else PopFrame), s))
    case Block(children) => ExecAll(m, expr, children, s, fuel)
    case IfGroup(clauses) => if clauses == [] then Normal(s) else ExecIf(m, expr, clauses, s, fuel)
    case WhileCycle(header, body) => ExecWhile(m, expr, header, body, s, fuel)
  }

  function ExecAll<S>(m: Meaning<S>, expr: ExpressionCode, nodes: seq<Node>, s: S, fuel: nat): Outcome<S>
    decreases fuel, nodes, 0
  {
    if nodes == [] then Normal(s)
    else
      match ExecNode(m, expr, nodes[0], s, fuel)
      case Normal(s') => ExecAll(m, expr, nodes[1..], s', fuel)
      case o => o
  }

  function ExecBranch<S>(m: Meaning<S>, expr: ExpressionCode, c: Clause, s: S, fuel: nat): Outcome<S>
    decreases fuel, c, 0
  {
    if LineOf(c) != [] then ExecExpression(m, expr, LineOf(c), s) else ExecAll(m, expr, c.body, s, fuel)
  }

  /** The first clause whose condition holds is the only one that runs; else runs when it is reached. */
  function ExecClauses<S>(m: Meaning<S>, expr: ExpressionCode, clauses: seq<Clause>, s: S, fuel: nat): Outcome<S>
    decreases fuel, clauses, 0
  {
    if clauses == [] then Normal(s)
    else
      var c, rest := clauses[0], clauses[1..];
      if c.kind == Else then
        match ExecBranch(m, expr, c, s, fuel)
        case Normal(s') => ExecClauses(m, expr, rest, s', fuel)
        case o => o
      else
        var s1 := Ask(m, expr, c.tokens, s);
        if m.test(s1) then ExecBranch(m, expr, c, m.drop(s1), fuel)
        else ExecClauses(m, expr, rest, m.drop(s1), fuel)
  }

  function ExecIf<S>(m: Meaning<S>, expr: ExpressionCode, clauses: seq<Clause>, s: S, fuel: nat): Outcome<S>
    requires clauses != []
    decreases fuel, clauses, 1
  {
    match ExecClauses(m, expr, clauses, s, fuel)
    case Normal(s') =>
      var last := clauses[|clauses| - 1];
      if LineOf(last) == [] then Normal(s') else ExecAll(m, expr, last.body, s', fuel)
    case o => o
  }

  /** One more round per unit of fuel; break ends the cycle, continue goes on with the next round. */
  function ExecLoop<S>(m: Meaning<S>, expr: ExpressionCode, header: seq<Token>, body: seq<Node>, s: S, fuel: nat): Outcome<S>
    decreases fuel, body, 1
  {
    if fuel == 0 then Unfinished
    else
      var s1 := Ask(m, expr, header, s);
      if !m.test(s1) then Normal(m.drop(s1))
      else
        var line := StatementTokens(header);
        var o := if line != [] then ExecExpression(m, expr, line, m.drop(s1)) else ExecAll(m, expr, body, m.drop(s1), fuel - 1);
        match o
        case Normal(s') => ExecLoop(m, expr, header, body, s', fuel - 1)
        case Continued(s') => ExecLoop(m, expr, header, body, s', fuel - 1)
        case Broke(s') => Normal(s')
        case Unfinished => Unfinished
  }

  /** A block after the cycle's own line is not its body. */
  function ExecWhile<S>(m: Meaning<S>, expr: ExpressionCode, header: seq<Token>, body: seq<Node>, s: S, fuel: nat): Outcome<S>
    decreases fuel, body, 2
  {
    match ExecLoop(m, expr, header, body, s, fuel)
    case Normal(s') => if StatementTokens(header) == [] then Normal(s') else ExecAll(m, expr, body, s', fuel)
    case o => o
  }

  // ----- flat execution -----

  datatype Conf<S> = Conf(pc: nat, s: S)

  /** The index of a label; |code| when there is none. */
  function Find(code: seq<POp>, id: nat): (i: nat)
    ensures i <= |code|
    ensures i < |code| ==> code[i] == Mark(id)
    ensures forall k :: 0 <= k < i ==> code[k] != Mark(id)
  {
    if code == [] then 0 else if code[0] == Mark(id) then 0 else 1 + Find(code[1..], id)
  }

  /** A jump nobody claimed still carries label id 0. */
  function Step<S>(m: Meaning<S>, code: seq<POp>, c: Conf<S>): Conf<S>
    requires c.pc < |code|
  {
    match code[c.pc]
    case Plain(op) => Conf(c.pc + 1, m.act(op, c.s))
    case Mark(_) => Conf(c.pc + 1, c.s)
    case Goto(id) => Conf(Find(code, id), c.s)
    case GotoUnless(id) => Conf(if m.test(c.s) then c.pc + 1 else Find(code, id), m.drop(c.s))
    case Unresolved(_) => Conf(Find(code, 0), c.s)
  }

  function Run<S>(m: Meaning<S>, code: seq<POp>, c: Conf<S>, n: nat): Conf<S>
    decreases n
  {
    if n == 0 || c.pc >= |code| then c else Run(m, code, Step(m, code, c), n - 1)
  }

  lemma {:induction false} RunAdd<S>(m: Meaning<S>, code: seq<POp>, c: Conf<S>, a: nat, b: nat)
    ensures Run(m, code, c, a + b) == Run(m, code, Run(m, code, c, a), b)
    decreases a
  {
    if a > 0 && c.pc < |code| {
      RunAdd(m, code, Step(m, code, c), a - 1, b);
    } else if a > 0 {
      assert Run(m, code, c, b) == c;
    }
  }

  /** The run reaches a configuration after n steps. */
  ghost predicate Reaches<S>(m: Meaning<S>, code: seq<POp>, c: Conf<S>, n: nat, c': Conf<S>) {
    Run(m, code, c, n) == c'
  }

  lemma ReachesThen<S>(m: Meaning<S>, code: seq<POp>, c: Conf<S>, a: nat, c1: Conf<S>, b: nat, c2: Conf<S>)
    requires Reaches(m, code, c, a, c1) && Reaches(m, code, c1, b, c2)
    ensures Reaches(m, code, c, a + b, c2)
  {
    RunAdd(m, code, c, a, b);
  }

  lemma ReachesOne<S>(m: Meaning<S>, code: seq<POp>, c: Conf<S>)
    requires c.pc < |code|
    ensures Reaches(m, code, c, 1, Step(m, code, c))
  {
    var c' := Step(m, code, c);
    assert Run(m, code, c', 0) == c';
  }

  // ----- code inside code -----

  /** The fragment x stands at p. */
  ghost predicate At(code: seq<POp>, p: nat, x: seq<POp>) {
    p + |x| <= |code| && forall k :: p <= k < p + |x| ==> code[k] == x[k - p]
  }

  lemma AtSplit(code: seq<POp>, p: nat, a: seq<POp>, b: seq<POp>)
    requires At(code, p, a + b)
    ensures At(code, p, a) && At(code, p + |a|, b)
  {
    forall k | p <= k < p + |a|
      ensures code[k] == a[k - p]
    {
      assert (a + b)[k - p] == a[k - p];
    }
    forall k | p + |a| <= k < p + |a| + |b|
      ensures code[k] == b[k - (p + |a|)]
    {
      assert (a + b)[k - p] == b[k - p - |a|];
    }
  }

  lemma AtOne(code: seq<POp>, p: nat, op: POp)
    requires At(code, p, [op])
    ensures p < |code| && code[p] == op
  {
    assert [op][p - p] == op;
  }

  lemma {:induction false} PlainRuns<S>(m: Meaning<S>, code: seq<POp>, p: nat, ops: seq<PseudoOp>, s: S)
    requires At(code, p, PlainCode(ops))
    ensures Reaches(m, code, Conf(p, s), |ops|, Conf(p + |ops|, RunOps(m, ops, s)))
    decreases |ops|
  {
    if ops != [] {
      var x := PlainCode(ops);
      assert x == [Plain(ops[0])] + PlainCode(ops[1..]);
      AtSplit(code, p, [Plain(ops[0])], PlainCode(ops[1..]));
      AtOne(code, p, Plain(ops[0]));
      ReachesOne(m, code, Conf(p, s));
      PlainRuns(m, code, p + 1, ops[1..], m.act(ops[0], s));
      ReachesThen(m, code, Conf(p, s), 1, Conf(p + 1, m.act(ops[0], s)), |ops| - 1, Conf(p + |ops|, RunOps(m, ops, s)));
    }
  }

  // ----- labels -----

  /** The labels a code declares. */
  function Ids(code: seq<POp>): set<nat> {
    set k | 0 <= k < |code| && code[k].Mark? :: code[k].id
  }

  /** No label is declared twice. */
  ghost predicate Unique(code: seq<POp>) {
    forall i, j :: 0 <= i < j < |code| && code[i].Mark? && code[j].Mark? ==> code[i].id != code[j].id
  }

  lemma IdsAppend(a: seq<POp>, b: seq<POp>)
    ensures Ids(a + b) == Ids(a) + Ids(b)
    ensures Unique(a) && Unique(b) && Ids(a) !! Ids(b) ==> Unique(a + b)
  {
    var x := a + b;
    assert forall k :: 0 <= k < |a| ==> x[k] == a[k];
    assert forall k :: 0 <= k < |b| ==> x[|a| + k] == b[k];
    forall id | id in Ids(a) + Ids(b)
      ensures id in Ids(x)
    {
      if id in Ids(a) {
        var k :| 0 <= k < |a| && a[k].Mark? && a[k].id == id;
        assert x[k].Mark? && x[k].id == id;
      } else {
        var k :| 0 <= k < |b| && b[k].Mark? && b[k].id == id;
        assert x[|a| + k].Mark? && x[|a| + k].id == id;
      }
    }
    if Unique(a) && Unique(b) && Ids(a) !! Ids(b) {
      forall i, j | 0 <= i < j < |x| && x[i].Mark? && x[j].Mark?
        ensures x[i].id != x[j].id
      {
        if i < |a| <= j {
          assert x[i] == a[i] && x[j] == b[j - |a|];
          assert a[i].id in Ids(a) && b[j - |a|].id in Ids(b);
        } else if |a| <= i {
          assert x[i] == b[i - |a|] && x[j] == b[j - |a|];
        }
      }
    }
  }

  lemma MarkFound(code: seq<POp>, p: nat, id: nat)
    requires Unique(code) && p < |code| && code[p] == Mark(id)
    ensures Find(code, id) == p
  {
    var i := Find(code, id);
    assert i <= p;
    assert code[i].Mark? && code[i].id == code[p].id;
  }
}
