/** The control-flow translator: it appends operations and patches break and continue jumps in place. */
module Lowering {
  import opened ByteCode
  import opened Pseudo
  import opened Syntax
  import opened Tokens
  import opened LoweringSpec
  import opened BreakScoping

  class BasicSyntaxTranslator {
    const expr: ExpressionCode
    var pseudoCode: seq<POp>
    var nextLabel: nat

    constructor (expr: ExpressionCode)
      ensures this.expr == expr && pseudoCode == [] && nextLabel == 0
    {
      this.expr := expr;
      pseudoCode, nextLabel := [], 0;
    }

    /** The outcome of a translation that started with the given code. */
    ghost predicate Emitted(ok: bool, expected: Option<Lowered>, before: seq<POp>)
      reads this
    {
      ok == expected.Some?
      && (ok ==> pseudoCode == before + expected.value.code && nextLabel == expected.value.next)
    }

    method GetNewLabelID() returns (id: nat)
      modifies this`nextLabel
      ensures id == old(nextLabel) && nextLabel == old(nextLabel) + 1
    {
      id := nextLabel;
      nextLabel := nextLabel + 1;
    }

    method Pushback(op: POp)
      modifies this`pseudoCode
      ensures pseudoCode == old(pseudoCode) + [op]
    {
      pseudoCode := pseudoCode + [op];
    }

    /** Separates a header's condition from the statement on its line, counting parentheses. */
    method Split(tokens: seq<Token>) returns (h: Header)
      requires tokens != []
      ensures h == SplitHeader(tokens)
    {
      hide SplitFrom, Joined;
      var condition, lineStatement: seq<Token> := [], [];
      JoinedNothing(SplitFrom(tokens[1..], 0, true));
      var depth, ci, buildCondition := 0, 1, true;
      while ci < |tokens|
        invariant 1 <= ci <= |tokens|
        invariant SplitHeader(tokens) == Joined(condition, lineStatement, SplitFrom(tokens[ci..], depth, buildCondition))
      {
        var t := tokens[ci];
        ghost var here := tokens[ci..];
        assert here[0] == t && here[1..] == tokens[ci + 1..];
        SplitStep(here, condition, lineStatement, depth, buildCondition);
        ci := ci + 1;
        if t.kind == Delimiter && t.text == LParen && buildCondition {
          if depth == 0 {
            depth := depth + 1;
            continue;
          }
          depth := depth + 1;
        }
        if t.kind == Delimiter && t.text == RParen && buildCondition {
          depth := depth - 1;
          if depth == 0 {
            buildCondition := false;
            continue;
          }
        }
        if buildCondition {
          condition := condition + [t];
        } else {
          lineStatement := lineStatement + [t];
        }
      }
      h := Header(condition, lineStatement);
      assert tokens[ci..] == [];
      JoinedEnd(condition, lineStatement, depth, buildCondition);
    }

    /** An expression statement; break and continue alone become unclaimed jumps. */
    method AnalyzeExpression(tokens: seq<Token>)
      modifies this`pseudoCode
      ensures pseudoCode == old(pseudoCode) + ExpressionOps(expr, tokens, NoCycle)
    {
      if IsBreak(tokens) {
        Pushback(Unresolved(true));
      } else if IsContinue(tokens) {
        Pushback(Unresolved(false));
      } else {
        pseudoCode := pseudoCode + PlainCode(expr(tokens));
      }
    }

    method AnalyzeCondition(header: seq<Token>, condition: seq<Token>)
      requires header != [] && condition == SplitHeader(header).condition
      modifies this`pseudoCode
      ensures pseudoCode == old(pseudoCode) + ConditionOps(expr, header)
    {
      pseudoCode := pseudoCode + PlainCode(expr(condition));
    }

    method AnalyzeRecursive(n: Node) returns (ok: bool)
      modifies this
      ensures Emitted(ok, LowerNode(expr, n, old(nextLabel), NoCycle), old(pseudoCode))
      decreases n, 0
    {
      ok := true;
      match n {
        case Expression(tokens) => AnalyzeExpression(tokens);
        case ScopeMark(opens) => Pushback(Plain(Op(if opens then PushFrame else PopFrame)));
        case Block(children) => ok := AnalyzeAll(children);
        case IfGroup(clauses) =>
          if |clauses| > 0 {
            ok := HandleIfCondition(clauses);
          }
        case WhileCycle(header, body) =>
          if |body| > 0 {
            ok := HandleWhile(header, body);
          }
      }
    }

    method AnalyzeAll(nodes: seq<Node>) returns (ok: bool)
      modifies this
      ensures Emitted(ok, LowerAll(expr, nodes, old(nextLabel), NoCycle), old(pseudoCode))
      decreases nodes, 0
    {
      ghost var done: seq<POp> := [];
      PrefixedNothing(LowerAll(expr, nodes, nextLabel, NoCycle));
      assert nodes[0..] == nodes;
      var i := 0;
      while i < |nodes|
        invariant 0 <= i <= |nodes|
        invariant pseudoCode == old(pseudoCode) + done
        invariant Prefixed(LowerAll(expr, nodes[i..], nextLabel, NoCycle), done)
                  == LowerAll(expr, nodes, old(nextLabel), NoCycle)
      {
        ghost var rest, start := nodes[i..], nextLabel;
        assert rest[0] == nodes[i] && rest[1..] == nodes[i + 1..];
        ok := AnalyzeRecursive(nodes[i]);
        if !ok { return; }
        ghost var first := LowerNode(expr, nodes[i], start, NoCycle).value;
        PrefixedAppend(LowerAll(expr, nodes[i + 1..], nextLabel, NoCycle), done, first.code);
        done := done + first.code;
        i := i + 1;
      }
      ok := true;
    }

    /** The statement of a clause: its line, or its block. */
    method AnalyzeBranch(c: Clause, lineStatement: seq<Token>) returns (ok: bool)
      requires lineStatement == LineOf(c)
      modifies this
      ensures Emitted(ok, LowerBranch(expr, c, old(nextLabel), NoCycle), old(pseudoCode))
      decreases c, 0
    {
      if lineStatement != [] {
        AnalyzeExpression(lineStatement);
        ok := true;
      } else {
        ok := AnalyzeAll(c.body);
      }
    }

    /** The first clause is an if, and no elif follows an else. */
    method CheckStructure(clauses: seq<Clause>) returns (ok: bool)
      requires clauses != []
      ensures ok <==> GroupOk(clauses)
    {
      if clauses[0].kind != If { return false; }
      var wasElse, index := false, 1;
      while index < |clauses|
        invariant 1 <= index <= |clauses|
        invariant wasElse <==> exists i :: 0 < i < index && clauses[i].kind == Else
        invariant forall i, j :: 0 < i < j < index && clauses[i].kind == Else ==> clauses[j].kind != Elif
      {
        if clauses[index].kind == Else {
          wasElse := true;
        } else if clauses[index].kind == Elif && wasElse {
          return false;
        }
        index := index + 1;
      }
      ok := true;
    }

    /** One conditional clause: condition, jump over, branch, jump to the end of a longer group, label. */
    method HandleConditional(c: Clause, end: Option<nat>) returns (ok: bool, ghost code: seq<POp>)
      requires c.kind == If || c.kind == Elif
      modifies this
      ensures ok == (ClauseOk(c, end.Some?) && LowerBranch(expr, c, old(nextLabel) + 1, NoCycle).Some?)
      ensures ok ==>
                var branch := LowerBranch(expr, c, old(nextLabel) + 1, NoCycle).value;
                && code == ConditionOps(expr, c.tokens) + [GotoUnless(old(nextLabel))] + branch.code
                           + (if end.Some? then [Goto(end.value)] else []) + [Mark(old(nextLabel))]
                && pseudoCode == old(pseudoCode) + code && nextLabel == branch.next
      decreases c, 1
    {
      hide LowerBranch, ConditionOps;
      code := [];
      if |c.tokens| < 4 { return false, []; }
      if c.tokens[1].kind != Delimiter || c.tokens[1].text != LParen { return false, []; }
      var h := Split(c.tokens);
      if h.condition == [] { return false, []; }
      AnalyzeCondition(c.tokens, h.condition);
      var notValid := GetNewLabelID();
      Pushback(GotoUnless(notValid));
      ghost var start := pseudoCode;
      ok := AnalyzeBranch(c, h.statement);
      if !ok { return; }
      ghost var branch := LowerBranch(expr, c, old(nextLabel) + 1, NoCycle).value;
      if end.Some? {
        Pushback(Goto(end.value));
      }
      Pushback(Mark(notValid));
      code := ConditionOps(expr, c.tokens) + [GotoUnless(notValid)] + branch.code
              + (if end.Some? then [Goto(end.value)] else []) + [Mark(notValid)];
      if end.Some? && h.statement != [] && c.body != [] { return false, []; }
    }

    method HandleClauses(clauses: seq<Clause>, end: Option<nat>) returns (ok: bool)
      modifies this
      ensures Emitted(ok, LowerClauses(expr, clauses, old(nextLabel), NoCycle, end), old(pseudoCode))
      decreases clauses, 0
    {
      hide LowerBranch, ConditionOps, ConditionOk;
      ghost var done: seq<POp> := [];
      PrefixedNothing(LowerClauses(expr, clauses, nextLabel, NoCycle, end));
      assert clauses[0..] == clauses;
      var i := 0;
      while i < |clauses|
        invariant 0 <= i <= |clauses|
        invariant pseudoCode == old(pseudoCode) + done
        invariant Prefixed(LowerClauses(expr, clauses[i..], nextLabel, NoCycle, end), done)
                  == LowerClauses(expr, clauses, old(nextLabel), NoCycle, end)
      {
        ghost var rest, start := clauses[i..], nextLabel;
        var c := clauses[i];
        assert rest[0] == c && rest[1..] == clauses[i + 1..];
        ghost var code: seq<POp>;
        if c.kind == If || c.kind == Elif {
          ok, code := HandleConditional(c, end);
        } else if c.kind == Else {
          ok := AnalyzeBranch(c, if |c.tokens| > 1 then c.tokens[1..] else []);
          code := if ok then LowerBranch(expr, c, start, NoCycle).value.code else [];
        } else {
          ok := false;
        }
        if !ok { return; }
        PrefixedAppend(LowerClauses(expr, clauses[i + 1..], nextLabel, NoCycle, end), done, code);
        done := done + code;
        i := i + 1;
      }
      ok := true;
    }

    method HandleIfCondition(clauses: seq<Clause>) returns (ok: bool)
      requires clauses != []
      modifies this
      ensures Emitted(ok, LowerIf(expr, clauses, old(nextLabel), NoCycle), old(pseudoCode))
      decreases clauses, 1
    {
      var end := None;
      if |clauses| > 1 {
        var id := GetNewLabelID();
        end := Some(id);
      }
      ok := CheckStructure(clauses);
      if !ok { return; }
      ok := HandleClauses(clauses, end);
      if !ok { return; }
      if end.Some? {
        Pushback(Mark(end.value));
      }
      var last := clauses[|clauses| - 1];
      if LineOf(last) != [] {
        ok := AnalyzeAll(last.body);
      }
    }

    /** Break and continue jumps from the given index on that no inner cycle has claimed belong to this cycle. */
    method ClaimFrom(start: nat, end: nat, check: nat)
      requires start <= |pseudoCode|
      modifies this`pseudoCode
      ensures pseudoCode == old(pseudoCode)[..start] + ClaimAll(old(pseudoCode)[start..], end, check)
    {
      ghost var was := pseudoCode;
      var index := start;
      while index < |pseudoCode|
        invariant start <= index <= |pseudoCode| == |was|
        invariant pseudoCode[..start] == was[..start] && pseudoCode[index..] == was[index..]
        invariant forall k :: start <= k < index ==> pseudoCode[k] == Claim(was[k], end, check)
      {
        var op := pseudoCode[index];
        assert op == was[index..][0];
        assert pseudoCode[index..][1..] == pseudoCode[index + 1..] && was[index..][1..] == was[index + 1..];
        if op.Unresolved? {
          pseudoCode := pseudoCode[index := Goto(if op.isBreak then end else check)];
        }
        index := index + 1;
      }
      assert pseudoCode == was[..start] + ClaimAll(was[start..], end, check);
    }

    /** The statement of a cycle, translated first and claimed afterwards. */
    method HandleCycleBody(lineStatement: seq<Token>, body: seq<Node>, end: nat, check: nat) returns (ok: bool)
      modifies this
      ensures Emitted(ok, if lineStatement != []
                          then Some(Lowered(ExpressionOps(expr, lineStatement, Cycle(end, check)), old(nextLabel)))
                          else LowerAll(expr, body, old(nextLabel), Cycle(end, check)), old(pseudoCode))
      decreases body, 1
    {
      hide LowerAll, ExpressionOps, ClaimAll;
      var start := |pseudoCode|;
      ghost var code: seq<POp>;
      if lineStatement != [] {
        AnalyzeExpression(lineStatement);
        ExpressionClaimed(expr, lineStatement, end, check);
        code := ExpressionOps(expr, lineStatement, NoCycle);
        ok := true;
      } else {
        ok := AnalyzeAll(body);
        AllClaimed(expr, body, old(nextLabel), end, check);
        if !ok { return; }
        code := LowerAll(expr, body, old(nextLabel), NoCycle).value.code;
      }
      assert pseudoCode[..start] == old(pseudoCode) && pseudoCode[start..] == code;
      ClaimFrom(start, end, check);
    }

    method HandleWhile(header: seq<Token>, body: seq<Node>) returns (ok: bool)
      modifies this
      ensures Emitted(ok, LowerWhile(expr, header, body, old(nextLabel), NoCycle), old(pseudoCode))
      decreases body, 2
    {
      hide LowerAll, ExpressionOps, ConditionOps, SplitHeader, ClaimAll;
      var checkLabel := GetNewLabelID();
      var endLabel := GetNewLabelID();
      if |header| < 4 { return false; }
      if header[0].kind != Keyword || header[0].text != Name("while") { return false; }
      var h := Split(header);
      if h.condition == [] { return false; }
      Pushback(Mark(checkLabel));
      AnalyzeCondition(header, h.condition);
      Pushback(GotoUnless(endLabel));
      ok := HandleCycleBody(h.statement, body, endLabel, checkLabel);
      if !ok { return; }
      Pushback(Goto(checkLabel));
      Pushback(Mark(endLabel));
      if h.statement != [] {
        ok := AnalyzeAll(body);
      }
    }
  }

  /** A lowering with some code before it. */
  ghost function Prefixed(l: Option<Lowered>, code: seq<POp>): Option<Lowered> {
    match l
    case Some(x) => Some(Lowered(code + x.code, x.next))
    case None => None
  }

  lemma PrefixedNothing(l: Option<Lowered>)
    ensures Prefixed(l, []) == l
  {
    if l.Some? {
      assert [] + l.value.code == l.value.code;
    }
  }

  /** A header whose parts are preceded by the tokens read so far. */
  ghost function Joined(condition: seq<Token>, statement: seq<Token>, h: Header): Header {
    Header(condition + h.condition, statement + h.statement)
  }

  lemma JoinedNothing(h: Header)
    ensures Joined([], [], h) == h
  {
  }

  lemma JoinedEnd(condition: seq<Token>, statement: seq<Token>, depth: int, building: bool)
    ensures Joined(condition, statement, SplitFrom([], depth, building)) == Header(condition, statement)
  {
  }

  lemma JoinedToken(c: seq<Token>, s: seq<Token>, t: Token, h: Header)
    ensures Joined(c, s, h.(condition := [t] + h.condition)) == Joined(c + [t], s, h)
    ensures Joined(c, s, h.(statement := [t] + h.statement)) == Joined(c, s + [t], h)
  {
    assert c + ([t] + h.condition) == (c + [t]) + h.condition;
    assert s + ([t] + h.statement) == (s + [t]) + h.statement;
  }

  lemma SplitStep(tokens: seq<Token>, c: seq<Token>, s: seq<Token>, depth: int, building: bool)
    requires tokens != []
    ensures var t, rest, h := tokens[0], tokens[1..], Joined(c, s, SplitFrom(tokens, depth, building));
            if !building then h == Joined(c, s + [t], SplitFrom(rest, depth, false))
            else if IsDelimiter(t, LParen) && depth == 0 then h == Joined(c, s, SplitFrom(rest, 1, true))
            else if IsDelimiter(t, RParen) && depth == 1 then h == Joined(c, s, SplitFrom(rest, 0, false))
            else if IsDelimiter(t, LParen) then h == Joined(c + [t], s, SplitFrom(rest, depth + 1, true))
            else if IsDelimiter(t, RParen) then h == Joined(c + [t], s, SplitFrom(rest, depth - 1, true))
            else h == Joined(c + [t], s, SplitFrom(rest, depth, true))
  {
    var t, rest := tokens[0], tokens[1..];
    if !building {
      JoinedToken(c, s, t, SplitFrom(rest, depth, false));
    } else if IsDelimiter(t, LParen) {
      JoinedToken(c, s, t, SplitFrom(rest, depth + 1, true));
    } else if IsDelimiter(t, RParen) {
      JoinedToken(c, s, t, SplitFrom(rest, depth - 1, true));
    } else {
      JoinedToken(c, s, t, SplitFrom(rest, depth, true));
    }
  }

  lemma PrefixedAppend(l: Option<Lowered>, a: seq<POp>, b: seq<POp>)
    ensures Prefixed(Prefixed(l, b), a) == Prefixed(l, a + b)
  {
    if l.Some? {
      assert a + (b + l.value.code) == (a + b) + l.value.code;
    }
  }
}
