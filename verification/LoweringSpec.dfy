/** What control-flow lowering makes of each statement: labels, jumps and the code of expressions. */
module LoweringSpec {
  import opened ByteCode
  import opened Pseudo
  import opened Syntax
  import opened Tokens

  /** A pseudo operation of the translated program. Unresolved: a break or continue jump that no cycle has claimed yet. */
  datatype POp =
    | Plain(op: PseudoOp)
    | Mark(id: nat)
    | Goto(id: nat)
    | GotoUnless(id: nat)
    | Unresolved(isBreak: bool)

  type ExpressionCode = seq<Token> -> seq<PseudoOp>

  datatype Lowered = Lowered(code: seq<POp>, next: nat)

  /** Where break and continue go: nowhere yet outside a cycle. */
  datatype Targets = NoCycle | Cycle(end: nat, check: nat)

  function Flow(isBreak: bool, targets: Targets): POp {
    match targets
    case NoCycle => Unresolved(isBreak)
    case Cycle(end, check) => Goto(if isBreak then end else check)
  }

  function PlainCode(ops: seq<PseudoOp>): seq<POp> {
    seq(|ops|, i requires 0 <= i < |ops| => Plain(ops[i]))
  }

  predicate IsBreak(tokens: seq<Token>) {
    |tokens| == 1 && IsKeyword(tokens[0], "break")
  }

  predicate IsContinue(tokens: seq<Token>) {
    |tokens| == 1 && IsKeyword(tokens[0], "continue")
  }

  function ExpressionOps(expr: ExpressionCode, tokens: seq<Token>, targets: Targets): seq<POp> {
    if IsBreak(tokens) then [Flow(true, targets)]
    else if IsContinue(tokens) then [Flow(false, targets)]
    else PlainCode(expr(tokens))
  }

  // ----- which statements are accepted -----

  predicate HeaderOk(tokens: seq<Token>) {
    |tokens| >= 4 && SplitHeader(tokens).condition != []
  }

  predicate ConditionOk(c: Clause) {
    HeaderOk(c.tokens) && IsDelimiter(c.tokens[1], LParen)
  }

  /** The statement written on the clause's own line; empty when the clause has a block instead. */
  function LineOf(c: Clause): seq<Token> {
    match c.kind
    case If => if c.tokens == [] then [] else SplitHeader(c.tokens).statement
    case Elif => if c.tokens == [] then [] else SplitHeader(c.tokens).statement
    case Else => if |c.tokens| > 1 then c.tokens[1..] else []
    case OtherClause => []
  }

  /** In a group of several clauses a conditional clause has a line or a block, not both. */
  predicate ClauseOk(c: Clause, several: bool) {
    match c.kind
    case Else => true
    case OtherClause => false
    case _ => ConditionOk(c) && !(several && LineOf(c) != [] && c.body != [])
  }

  /** The group starts with if and has no elif after an else. A second else is accepted. */
  predicate GroupOk(clauses: seq<Clause>) {
    && clauses != [] && clauses[0].kind == If
    && (forall i, j :: 0 < i < j < |clauses| && clauses[i].kind == Else ==> clauses[j].kind != Elif)
  }

  // ----- lowering -----

  /** Nothing is emitted for a cycle without a block: the dispatcher passes over nodes without children. */
  function LowerNode(expr: ExpressionCode, n: Node, next: nat, targets: Targets): Option<Lowered>
    decreases n, 0
  {
    match n
    case Expression(tokens) => Some(Lowered(ExpressionOps(expr, tokens, targets), next))
    case ScopeMark(opens) => Some(Lowered([Plain(Op(if opens then PushFrame else PopFrame))], next))
    case Block(children) => LowerAll(expr, children, next, targets)
    case IfGroup(clauses) => if clauses == [] then Some(Lowered([], next)) else LowerIf(expr, clauses, next, targets)
    case WhileCycle(header, body) =>
      if body == [] then Some(Lowered([], next)) else LowerWhile(expr, header, body, next, targets)
  }

  function LowerAll(expr: ExpressionCode, nodes: seq<Node>, next: nat, targets: Targets): Option<Lowered>
    decreases nodes, 0
  {
    if nodes == [] then Some(Lowered([], next))
    else
      var first :- LowerNode(expr, nodes[0], next, targets);
      var rest :- LowerAll(expr, nodes[1..], first.next, targets);
      Some(Lowered(first.code + rest.code, rest.next))
  }

  /** The branch of a clause: its line, or its block. */
  function LowerBranch(expr: ExpressionCode, c: Clause, next: nat, targets: Targets): Option<Lowered>
    decreases c, 0
  {
    if LineOf(c) != [] then Some(Lowered(ExpressionOps(expr, LineOf(c), targets), next))
    else LowerAll(expr, c.body, next, targets)
  }

  /** The clauses of a group, each skipping to the next when its condition fails; end, if any, is past the group. */
  function LowerClauses(expr: ExpressionCode, clauses: seq<Clause>, next: nat, targets: Targets, end: Option<nat>): Option<Lowered>
    decreases clauses, 0
  {
    if clauses == [] then Some(Lowered([], next))
    else
      var c := clauses[0];
      if !ClauseOk(c, end.Some?) then None
      else if c.kind == Else then
        var branch :- LowerBranch(expr, c, next, targets);
        var rest :- LowerClauses(expr, clauses[1..], branch.next, targets, end);
        Some(Lowered(branch.code + rest.code, rest.next))
      else
        var condition := ConditionOps(expr, c.tokens);
        var branch :- LowerBranch(expr, c, next + 1, targets);
        var rest :- LowerClauses(expr, clauses[1..], branch.next, targets, end);
        var leave := if end.Some? then [Goto(end.value)] else [];
        Some(Lowered(condition + [GotoUnless(next)] + branch.code + leave + [Mark(next)] + rest.code, rest.next))
  }

  function ConditionOps(expr: ExpressionCode, header: seq<Token>): seq<POp>
    requires header != []
  {
    PlainCode(expr(SplitHeader(header).condition))
  }

  function LowerIf(expr: ExpressionCode, clauses: seq<Clause>, next: nat, targets: Targets): Option<Lowered>
    requires clauses != []
    decreases clauses, 1
  {
    if !GroupOk(clauses) then None
    else
      var several := |clauses| > 1;
      var end := if several then Some(next) else None;
      var body :- LowerClauses(expr, clauses, if several then next + 1 else next, targets, end);
      // a block that follows the last clause's own line is not part of the clause: it comes afterwards
      var last := clauses[|clauses| - 1];
      var after :- if LineOf(last) == [] then Some(Lowered([], body.next)) else LowerAll(expr, last.body, body.next, targets);
      Some(Lowered(body.code + (if several then [Mark(next)] else []) + after.code, after.next))
  }

  function LowerWhile(expr: ExpressionCode, header: seq<Token>, body: seq<Node>, next: nat, targets: Targets): Option<Lowered>
    decreases body, 1
  {
    if !HeaderOk(header) || !IsKeyword(header[0], "while") then None
    else
      var check, end := next, next + 1;
      var line := SplitHeader(header).statement;
      var inner :- if line != [] then Some(Lowered(ExpressionOps(expr, line, Cycle(end, check)), next + 2))
                   else LowerAll(expr, body, next + 2, Cycle(end, check));
      var after :- if line != [] then LowerAll(expr, body, inner.next, targets) else Some(Lowered([], inner.next));
      Some(Lowered([Mark(check)] + ConditionOps(expr, header) + [GotoUnless(end)] + inner.code
                   + [Goto(check), Mark(end)] + after.code, after.next))
  }

  // ----- claiming break and continue -----

  /** What a cycle does to each operation of its body once the body is translated. */
  function Claim(op: POp, end: nat, check: nat): POp {
    if op.Unresolved? then Goto(if op.isBreak then end else check) else op
  }

  function ClaimAll(code: seq<POp>, end: nat, check: nat): seq<POp> {
    seq(|code|, i requires 0 <= i < |code| => Claim(code[i], end, check))
  }
}
