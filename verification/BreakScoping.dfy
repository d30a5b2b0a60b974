/** Patching break and continue after a cycle's body is translated is the same as knowing their targets all along. */
module BreakScoping {
  import opened ByteCode
  import opened Pseudo
  import opened Syntax
  import opened Tokens
  import opened LoweringSpec

  lemma ClaimAppend(a: seq<POp>, b: seq<POp>, end: nat, check: nat)
    ensures ClaimAll(a + b, end, check) == ClaimAll(a, end, check) + ClaimAll(b, end, check)
  {
  }

  /** Claiming the jumps of a body afterwards. */
  function Claimed(l: Option<Lowered>, end: nat, check: nat): Option<Lowered> {
    match l
    case Some(x) => Some(Lowered(ClaimAll(x.code, end, check), x.next))
    case None => None
  }

  lemma ClaimNothing(end: nat, check: nat)
    ensures ClaimAll([], end, check) == []
  {
  }

  lemma ClaimOne(op: POp, end: nat, check: nat)
    ensures ClaimAll([op], end, check) == [Claim(op, end, check)]
  {
  }

  lemma ExpressionClaimed(expr: ExpressionCode, tokens: seq<Token>, end: nat, check: nat)
    ensures ClaimAll(ExpressionOps(expr, tokens, NoCycle), end, check) == ExpressionOps(expr, tokens, Cycle(end, check))
  {
  }

  lemma ConditionClaimed(expr: ExpressionCode, header: seq<Token>, end: nat, check: nat)
    requires header != []
    ensures ClaimAll(ConditionOps(expr, header), end, check) == ConditionOps(expr, header)
  {
  }

  /** Patching a body after its translation gives what translating it with the targets known would have given. */
  lemma {:induction false} NodeClaimed(expr: ExpressionCode, n: Node, next: nat, end: nat, check: nat)
    ensures LowerNode(expr, n, next, Cycle(end, check)) == Claimed(LowerNode(expr, n, next, NoCycle), end, check)
    decreases n, 0
  {
    ClaimNothing(end, check);
    match n
    case Expression(tokens) => ExpressionClaimed(expr, tokens, end, check);
    case ScopeMark(opens) => ClaimOne(Plain(Op(if opens then PushFrame else PopFrame)), end, check);
    case Block(children) => AllClaimed(expr, children, next, end, check);
    case IfGroup(clauses) =>
      if clauses != [] {
        IfClaimed(expr, clauses, next, end, check);
      }
    case WhileCycle(header, body) =>
      if body != [] {
        WhileClaimed(expr, header, body, next, end, check);
      }
  }

  lemma {:induction false} AllClaimed(expr: ExpressionCode, nodes: seq<Node>, next: nat, end: nat, check: nat)
    ensures LowerAll(expr, nodes, next, Cycle(end, check)) == Claimed(LowerAll(expr, nodes, next, NoCycle), end, check)
    decreases nodes, 0
  {
    ClaimNothing(end, check);
    if nodes != [] {
      NodeClaimed(expr, nodes[0], next, end, check);
      var first := LowerNode(expr, nodes[0], next, NoCycle);
      if first.Some? {
        AllClaimed(expr, nodes[1..], first.value.next, end, check);
        var rest := LowerAll(expr, nodes[1..], first.value.next, NoCycle);
        if rest.Some? {
          ClaimAppend(first.value.code, rest.value.code, end, check);
        }
      }
    }
  }

  lemma {:induction false} BranchClaimed(expr: ExpressionCode, c: Clause, next: nat, end: nat, check: nat)
    ensures LowerBranch(expr, c, next, Cycle(end, check)) == Claimed(LowerBranch(expr, c, next, NoCycle), end, check)
    decreases c, 0
  {
    ExpressionClaimed(expr, LineOf(c), end, check);
    if LineOf(c) == [] {
      AllClaimed(expr, c.body, next, end, check);
    }
  }

  lemma {:induction false} ClausesClaimed(expr: ExpressionCode, clauses: seq<Clause>, next: nat, past: Option<nat>, end: nat, check: nat)
    ensures LowerClauses(expr, clauses, next, Cycle(end, check), past)
            == Claimed(LowerClauses(expr, clauses, next, NoCycle, past), end, check)
    decreases clauses, 0
  {
    ClaimNothing(end, check);
    if clauses != [] && ClauseOk(clauses[0], past.Some?) {
      var c := clauses[0];
      var start := if c.kind == Else then next else next + 1;
      BranchClaimed(expr, c, start, end, check);
      var branch := LowerBranch(expr, c, start, NoCycle);
      if branch.Some? {
        ClausesClaimed(expr, clauses[1..], branch.value.next, past, end, check);
        var rest := LowerClauses(expr, clauses[1..], branch.value.next, NoCycle, past);
        if rest.Some? {
          if c.kind == Else {
            ClaimAppend(branch.value.code, rest.value.code, end, check);
          } else {
            ConditionClaimed(expr, c.tokens, end, check);
            var leave := if past.Some? then [Goto(past.value)] else [];
            ClaimClause(ConditionOps(expr, c.tokens), next, branch.value.code, leave, rest.value.code, end, check);
          }
        }
      }
    }
  }

  lemma ClaimClause(condition: seq<POp>, id: nat, branch: seq<POp>, leave: seq<POp>, rest: seq<POp>, end: nat, check: nat)
    requires ClaimAll(condition, end, check) == condition && |leave| <= 1 && (leave != [] ==> leave[0].Goto?)
    ensures ClaimAll(condition + [GotoUnless(id)] + branch + leave + [Mark(id)] + rest, end, check)
            == condition + [GotoUnless(id)] + ClaimAll(branch, end, check) + leave + [Mark(id)] + ClaimAll(rest, end, check)
  {
    var head := condition + [GotoUnless(id)];
    ClaimOne(GotoUnless(id), end, check);
    ClaimOne(Mark(id), end, check);
    assert ClaimAll(leave, end, check) == leave;
    ClaimAppend(condition, [GotoUnless(id)], end, check);
    ClaimAppend(head, branch, end, check);
    ClaimAppend(head + branch, leave, end, check);
    ClaimAppend(head + branch + leave, [Mark(id)], end, check);
    ClaimAppend(head + branch + leave + [Mark(id)], rest, end, check);
  }

  lemma {:induction false} IfClaimed(expr: ExpressionCode, clauses: seq<Clause>, next: nat, end: nat, check: nat)
    requires clauses != []
    ensures LowerIf(expr, clauses, next, Cycle(end, check)) == Claimed(LowerIf(expr, clauses, next, NoCycle), end, check)
    decreases clauses, 1
  {
    ClaimNothing(end, check);
    if GroupOk(clauses) {
      var several := |clauses| > 1;
      var past := if several then Some(next) else None;
      var start := if several then next + 1 else next;
      ClausesClaimed(expr, clauses, start, past, end, check);
      var body := LowerClauses(expr, clauses, start, NoCycle, past);
      var last := clauses[|clauses| - 1];
      if body.Some? {
        if LineOf(last) != [] {
          AllClaimed(expr, last.body, body.value.next, end, check);
        }
        var after := if LineOf(last) == [] then Some(Lowered([], body.value.next))
                     else LowerAll(expr, last.body, body.value.next, NoCycle);
        if after.Some? {
          var mark := if several then [Mark(next)] else [];
          ClaimOne(Mark(next), end, check);
          ClaimAppend(body.value.code, mark, end, check);
          ClaimAppend(body.value.code + mark, after.value.code, end, check);
        }
      }
    }
  }

  lemma {:induction false} WhileClaimed(expr: ExpressionCode, header: seq<Token>, body: seq<Node>, next: nat, end: nat, check: nat)
    ensures LowerWhile(expr, header, body, next, Cycle(end, check))
            == Claimed(LowerWhile(expr, header, body, next, NoCycle), end, check)
    decreases body, 2
  {
    ClaimNothing(end, check);
    if HeaderOk(header) && IsKeyword(header[0], "while") {
      var line, own := SplitHeader(header).statement, Cycle(next + 1, next);
      var inner := if line != [] then Some(Lowered(ExpressionOps(expr, line, own), next + 2))
                   else LowerAll(expr, body, next + 2, own);
      if inner.Some? {
        if line != [] {
          AllClaimed(expr, body, inner.value.next, end, check);
          CycleIsClosed(expr, line, next + 1, next, end, check);
        } else {
          AllClosed(expr, body, next + 2, next + 1, next);
          ClosedStays(inner.value.code, end, check);
        }
        var after := if line != [] then LowerAll(expr, body, inner.value.next, NoCycle) else Some(Lowered([], inner.value.next));
        if after.Some? {
          ConditionClaimed(expr, header, end, check);
          var head := [Mark(next)] + ConditionOps(expr, header) + [GotoUnless(next + 1)];
          var tail := [Goto(next), Mark(next + 1)];
          ClaimOne(Mark(next), end, check);
          ClaimOne(GotoUnless(next + 1), end, check);
          assert ClaimAll(tail, end, check) == tail;
          ClaimAppend([Mark(next)], ConditionOps(expr, header), end, check);
          ClaimAppend([Mark(next)] + ConditionOps(expr, header), [GotoUnless(next + 1)], end, check);
          ClaimAppend(head, inner.value.code, end, check);
          ClaimAppend(head + inner.value.code, tail, end, check);
          ClaimAppend(head + inner.value.code + tail, after.value.code, end, check);
        }
      }
    }
  }

  // ----- scoping -----

  /** No break or continue is left unclaimed. */
  predicate Closed(code: seq<POp>) {
    forall k :: 0 <= k < |code| ==> !code[k].Unresolved?
  }

  lemma ClosedStays(code: seq<POp>, end: nat, check: nat)
    requires Closed(code)
    ensures ClaimAll(code, end, check) == code
  {
  }

  lemma CycleIsClosed(expr: ExpressionCode, tokens: seq<Token>, end: nat, check: nat, end': nat, check': nat)
    ensures Closed(ExpressionOps(expr, tokens, Cycle(end, check)))
    ensures ClaimAll(ExpressionOps(expr, tokens, Cycle(end, check)), end', check') == ExpressionOps(expr, tokens, Cycle(end, check))
  {
  }

  /** Inside a cycle nothing stays unclaimed. */
  lemma AllClosed(expr: ExpressionCode, nodes: seq<Node>, next: nat, end: nat, check: nat)
    requires LowerAll(expr, nodes, next, Cycle(end, check)).Some?
    ensures Closed(LowerAll(expr, nodes, next, Cycle(end, check)).value.code)
    decreases nodes, 1
  {
    AllClaimed(expr, nodes, next, end, check);
  }

  /** No break or continue outside a cycle. A block that the translation passes over does not count. */
  predicate Scoped(n: Node)
    decreases n, 0
  {
    match n
    case Expression(tokens) => !IsBreak(tokens) && !IsContinue(tokens)
    case ScopeMark(_) => true
    case Block(children) => AllScoped(children)
    case IfGroup(clauses) => clauses == [] || IfScoped(clauses)
    case WhileCycle(header, body) => header == [] || SplitHeader(header).statement == [] || AllScoped(body)
  }

  predicate AllScoped(nodes: seq<Node>)
    decreases nodes, 0
  {
    nodes == [] || (Scoped(nodes[0]) && AllScoped(nodes[1..]))
  }

  predicate BranchScoped(c: Clause)
    decreases c, 0
  {
    if LineOf(c) != [] then !IsBreak(LineOf(c)) && !IsContinue(LineOf(c)) else AllScoped(c.body)
  }

  predicate ClausesScoped(clauses: seq<Clause>)
    decreases clauses, 0
  {
    clauses == [] || (BranchScoped(clauses[0]) && ClausesScoped(clauses[1..]))
  }

  predicate IfScoped(clauses: seq<Clause>)
    requires clauses != []
    decreases clauses, 1
  {
    var last := clauses[|clauses| - 1];
    ClausesScoped(clauses) && (LineOf(last) == [] || AllScoped(last.body))
  }

  lemma ClosedAppend(a: seq<POp>, b: seq<POp>)
    ensures Closed(a + b) <==> Closed(a) && Closed(b)
  {
    assert forall k :: 0 <= k < |a| ==> (a + b)[k] == a[k];
    assert forall k :: 0 <= k < |b| ==> (a + b)[|a| + k] == b[k];
  }

  lemma PlainClosed(ops: seq<PseudoOp>)
    ensures Closed(PlainCode(ops))
  {
  }

  lemma ExpressionClosed(expr: ExpressionCode, tokens: seq<Token>)
    ensures Closed(ExpressionOps(expr, tokens, NoCycle)) <==> !IsBreak(tokens) && !IsContinue(tokens)
  {
    if IsBreak(tokens) || IsContinue(tokens) {
      assert ExpressionOps(expr, tokens, NoCycle)[0].Unresolved?;
    }
  }

  /** A translated statement has no unclaimed jump exactly when every break and continue is inside a cycle. */
  lemma {:induction false} ClosedIffScoped(expr: ExpressionCode, n: Node, next: nat)
    requires LowerNode(expr, n, next, NoCycle).Some?
    ensures Closed(LowerNode(expr, n, next, NoCycle).value.code) <==> Scoped(n)
    decreases n, 0
  {
    match n
    case Expression(tokens) => ExpressionClosed(expr, tokens);
    case ScopeMark(_) =>
    case Block(children) => AllClosedIffScoped(expr, children, next);
    case IfGroup(clauses) =>
      if clauses != [] {
        IfClosedIffScoped(expr, clauses, next);
      }
    case WhileCycle(header, body) =>
      if body != [] {
        WhileClosedIffScoped(expr, header, body, next);
      } else {
        assert AllScoped(body);
      }
  }

  lemma {:induction false} AllClosedIffScoped(expr: ExpressionCode, nodes: seq<Node>, next: nat)
    requires LowerAll(expr, nodes, next, NoCycle).Some?
    ensures Closed(LowerAll(expr, nodes, next, NoCycle).value.code) <==> AllScoped(nodes)
    decreases nodes, 0
  {
    if nodes != [] {
      var first := LowerNode(expr, nodes[0], next, NoCycle).value;
      ClosedIffScoped(expr, nodes[0], next);
      AllClosedIffScoped(expr, nodes[1..], first.next);
      ClosedAppend(first.code, LowerAll(expr, nodes[1..], first.next, NoCycle).value.code);
    }
  }

  lemma {:induction false} ClausesClosedIffScoped(expr: ExpressionCode, clauses: seq<Clause>, next: nat, past: Option<nat>)
    requires LowerClauses(expr, clauses, next, NoCycle, past).Some?
    ensures Closed(LowerClauses(expr, clauses, next, NoCycle, past).value.code) <==> ClausesScoped(clauses)
    decreases clauses, 0
  {
    if clauses != [] {
      var c := clauses[0];
      var start := if c.kind == Else then next else next + 1;
      var branch := LowerBranch(expr, c, start, NoCycle).value;
      ExpressionClosed(expr, LineOf(c));
      if LineOf(c) == [] {
        AllClosedIffScoped(expr, c.body, start);
      }
      ClausesClosedIffScoped(expr, clauses[1..], branch.next, past);
      var rest := LowerClauses(expr, clauses[1..], branch.next, NoCycle, past).value.code;
      if c.kind == Else {
        ClosedAppend(branch.code, rest);
      } else {
        var condition := ConditionOps(expr, c.tokens);
        var leave := if past.Some? then [Goto(past.value)] else [];
        PlainClosed(expr(SplitHeader(c.tokens).condition));
        ClosedAppend(condition, [GotoUnless(next)]);
        ClosedAppend(condition + [GotoUnless(next)], branch.code);
        ClosedAppend(condition + [GotoUnless(next)] + branch.code, leave);
        ClosedAppend(condition + [GotoUnless(next)] + branch.code + leave, [Mark(next)]);
        ClosedAppend(condition + [GotoUnless(next)] + branch.code + leave + [Mark(next)], rest);
      }
    }
  }

  lemma {:induction false} IfClosedIffScoped(expr: ExpressionCode, clauses: seq<Clause>, next: nat)
    requires clauses != [] && LowerIf(expr, clauses, next, NoCycle).Some?
    ensures Closed(LowerIf(expr, clauses, next, NoCycle).value.code) <==> IfScoped(clauses)
    decreases clauses, 1
  {
    var several := |clauses| > 1;
    var past := if several then Some(next) else None;
    var start := if several then next + 1 else next;
    ClausesClosedIffScoped(expr, clauses, start, past);
    var body := LowerClauses(expr, clauses, start, NoCycle, past).value;
    var last := clauses[|clauses| - 1];
    var mark := if several then [Mark(next)] else [];
    if LineOf(last) != [] {
      AllClosedIffScoped(expr, last.body, body.next);
    }
    var after := if LineOf(last) == [] then [] else LowerAll(expr, last.body, body.next, NoCycle).value.code;
    ClosedAppend(body.code, mark);
    ClosedAppend(body.code + mark, after);
  }

  lemma {:induction false} WhileClosedIffScoped(expr: ExpressionCode, header: seq<Token>, body: seq<Node>, next: nat)
    requires LowerWhile(expr, header, body, next, NoCycle).Some?
    ensures Closed(LowerWhile(expr, header, body, next, NoCycle).value.code)
            <==> SplitHeader(header).statement == [] || AllScoped(body)
    decreases body, 1
  {
    var line, own := SplitHeader(header).statement, Cycle(next + 1, next);
    var inner := if line != [] then Lowered(ExpressionOps(expr, line, own), next + 2)
                 else LowerAll(expr, body, next + 2, own).value;
    if line != [] {
      CycleIsClosed(expr, line, next + 1, next, 0, 0);
      AllClosedIffScoped(expr, body, inner.next);
    } else {
      AllClosed(expr, body, next + 2, next + 1, next);
    }
    var after := if line != [] then LowerAll(expr, body, inner.next, NoCycle).value.code else [];
    var head := [Mark(next)] + ConditionOps(expr, header) + [GotoUnless(next + 1)];
    var tail := [Goto(next), Mark(next + 1)];
    PlainClosed(expr(SplitHeader(header).condition));
    ClosedAppend([Mark(next)], ConditionOps(expr, header));
    ClosedAppend([Mark(next)] + ConditionOps(expr, header), [GotoUnless(next + 1)]);
    ClosedAppend(head, inner.code);
    ClosedAppend(head + inner.code, tail);
    ClosedAppend(head + inner.code + tail, after);
  }
}
