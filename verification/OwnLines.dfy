/** Statements written on the line of an if, elif, else or while: which tokens they are, and the code they become. */
module OwnLines {
  import opened ByteCode
  import opened Pseudo
  import opened Syntax
  import opened LoweringSpec
  import opened Tokens

  function Keyword(word: string): Token {
    Token(TokenType.Keyword, Name(word))
  }

  /** word ( condition ) line */
  function Headed(word: string, condition: seq<Token>, line: seq<Token>): seq<Token> {
    [Keyword(word), Token(Delimiter, LParen)] + condition + [Token(Delimiter, RParen)] + line
  }

  /** A jump for the single word break or continue, the code of an expression otherwise. */
  function LineCode(expr: ExpressionCode, line: seq<Token>, targets: Targets): seq<POp> {
    if line == [Keyword("break")] then [match targets case NoCycle => Unresolved(true) case Cycle(end, _) => Goto(end)]
    else if line == [Keyword("continue")] then [match targets case NoCycle => Unresolved(false) case Cycle(_, check) => Goto(check)]
    else PlainCode(expr(line))
  }

  function InFront(code: seq<POp>, rest: Option<Lowered>): Option<Lowered> {
    match rest
    case Some(r) => Some(Lowered(code + r.code, r.next))
    case None => None
  }

  lemma WordsDiffer()
    ensures "break" != "continue"
  {
    assert "break"[0] != "continue"[0];
  }

  lemma LineIsExpression(expr: ExpressionCode, line: seq<Token>, targets: Targets)
    ensures LineCode(expr, line, targets) == ExpressionOps(expr, line, targets)
  {
    WordsDiffer();
    assert IsBreak(line) <==> line == [Keyword("break")];
    assert IsContinue(line) <==> line == [Keyword("continue")];
  }

  lemma HeadedSplits(word: string, condition: seq<Token>, line: seq<Token>)
    requires Nests(condition, 0) && condition != []
    ensures SplitHeader(Headed(word, condition, line)) == Header(condition, line) && HeaderOk(Headed(word, condition, line))
    ensures Headed(word, condition, line)[0] == Keyword(word) && IsDelimiter(Headed(word, condition, line)[1], LParen)
  {
    HeaderRoundTrip(Keyword(word), Token(Delimiter, LParen), condition, Token(Delimiter, RParen), line);
  }

  // ----- clauses -----

  /** else line: the code of the line, which starts behind the word; else { }: that of the block. */
  lemma ElseClause(expr: ExpressionCode, line: seq<Token>, body: seq<Node>, rest: seq<Clause>, next: nat, targets: Targets, end: Option<nat>)
    ensures var all := LowerClauses(expr, [Clause(Else, [Keyword("else")] + line, body)] + rest, next, targets, end);
            if line != [] then all == InFront(LineCode(expr, line, targets), LowerClauses(expr, rest, next, targets, end))
            else
              match LowerAll(expr, body, next, targets)
              case Some(block) => all == InFront(block.code, LowerClauses(expr, rest, block.next, targets, end))
              case None => all == None
  {
    hide LowerAll, LineCode, ExpressionOps;
    var c := Clause(Else, [Keyword("else")] + line, body);
    assert c.tokens[1..] == line;
    assert ([c] + rest)[1..] == rest;
    LineIsExpression(expr, line, targets);
  }

  /**
   * if ( condition ) line, or elif: the condition, a jump past the line when it fails, exactly the line's code, the jump out of a group of
   * several, the label behind it. Among several clauses a line followed by a block is refused.
   */
  lemma ConditionalClause(expr: ExpressionCode, kind: ClauseKind, condition: seq<Token>, line: seq<Token>, body: seq<Node>, rest: seq<Clause>,
                          next: nat, targets: Targets, end: Option<nat>)
    requires (kind == If || kind == Elif) && Nests(condition, 0) && condition != []
    ensures var c := Clause(kind, Headed(if kind == If then "if" else "elif", condition, line), body);
            var all := LowerClauses(expr, [c] + rest, next, targets, end);
            var asked, leave := PlainCode(expr(condition)) + [GotoUnless(next)], if end.Some? then [Goto(end.value)] else [];
            if line != [] then
              all == if end.Some? && body != [] then None
                     else InFront(asked + LineCode(expr, line, targets) + leave + [Mark(next)], LowerClauses(expr, rest, next + 1, targets, end))
            else
              match LowerAll(expr, body, next + 1, targets)
              case Some(block) => all == InFront(asked + block.code + leave + [Mark(next)], LowerClauses(expr, rest, block.next, targets, end))
              case None => all == None
  {
    hide LowerAll, LineCode, ExpressionOps, SplitHeader, Headed;
    var word := if kind == If then "if" else "elif";
    var c := Clause(kind, Headed(word, condition, line), body);
    HeadedSplits(word, condition, line);
    assert ([c] + rest)[1..] == rest;
    LineIsExpression(expr, line, targets);
  }

  // ----- whole statements -----

  /** if ( condition ) line else other: one of the two, and then on behind both. */
  lemma IfLineElseLine(expr: ExpressionCode, condition: seq<Token>, line: seq<Token>, other: seq<Token>, next: nat, targets: Targets)
    requires Nests(condition, 0) && condition != [] && line != [] && other != []
    ensures var group := IfGroup([Clause(If, Headed("if", condition, line), []), Clause(Else, [Keyword("else")] + other, [])]);
            LowerNode(expr, group, next, targets)
            == Some(Lowered(PlainCode(expr(condition)) + [GotoUnless(next + 1)] + LineCode(expr, line, targets) + [Goto(next), Mark(next + 1)]
                            + LineCode(expr, other, targets) + [Mark(next)], next + 2))
  {
    hide LowerAll, LineCode, SplitHeader, Headed, PlainCode, LineOf, ClauseOk, LowerClauses;
    var c, d := Clause(If, Headed("if", condition, line), []), Clause(Else, [Keyword("else")] + other, []);
    var end := Some(next);
    assert [c, d] == [c] + [d] && [d] == [d] + [];
    ConditionalClause(expr, If, condition, line, [], [d], next + 1, targets, end);
    ElseClause(expr, other, [], [], next + 2, targets, end);
    NothingBehind(expr, next + 2, targets, end);
    var asked := PlainCode(expr(condition)) + [GotoUnless(next + 1)];
    var x, y := LineCode(expr, line, targets), LineCode(expr, other, targets);
    assert asked + x + [Goto(next)] + [Mark(next + 1)] + (y + []) + [Mark(next)] + []
        == asked + x + [Goto(next), Mark(next + 1)] + y + [Mark(next)];
  }

  lemma NothingBehind(expr: ExpressionCode, next: nat, targets: Targets, end: Option<nat>)
    ensures LowerClauses(expr, [], next, targets, end) == Some(Lowered([], next))
    ensures LowerAll(expr, [], next, targets) == Some(Lowered([], next))
  {
  }

  /** if ( condition ) line with a block behind it: the block is run in any case. */
  lemma IfLine(expr: ExpressionCode, condition: seq<Token>, line: seq<Token>, body: seq<Node>, next: nat, targets: Targets)
    requires Nests(condition, 0) && condition != [] && line != []
    ensures LowerNode(expr, IfGroup([Clause(If, Headed("if", condition, line), body)]), next, targets)
         == InFront(PlainCode(expr(condition)) + [GotoUnless(next)] + LineCode(expr, line, targets) + [Mark(next)],
                    LowerAll(expr, body, next + 1, targets))
  {
    hide LowerAll, LineCode, SplitHeader, Headed, PlainCode, ClauseOk, LowerClauses;
    var c := Clause(If, Headed("if", condition, line), body);
    assert [c] == [c] + [];
    ConditionalClause(expr, If, condition, line, body, [], next, targets, None);
    NothingBehind(expr, next + 1, targets, None);
    HeadedSplits("if", condition, line);
    var x := PlainCode(expr(condition)) + [GotoUnless(next)] + LineCode(expr, line, targets) + [] + [Mark(next)];
    assert x + [] + [] == PlainCode(expr(condition)) + [GotoUnless(next)] + LineCode(expr, line, targets) + [Mark(next)];
  }

  /** while ( condition ) line with a block behind it: the line is repeated, and the block is run afterwards. */
  lemma WhileLine(expr: ExpressionCode, condition: seq<Token>, line: seq<Token>, body: seq<Node>, next: nat, targets: Targets)
    requires Nests(condition, 0) && condition != [] && line != [] && body != []
    ensures LowerNode(expr, WhileCycle(Headed("while", condition, line), body), next, targets)
         == InFront([Mark(next)] + PlainCode(expr(condition)) + [GotoUnless(next + 1)]
                    + LineCode(expr, line, Cycle(next + 1, next)) + [Goto(next), Mark(next + 1)],
                    LowerAll(expr, body, next + 2, targets))
  {
    hide LowerAll, LineCode, SplitHeader, Headed;
    HeadedSplits("while", condition, line);
    LineIsExpression(expr, line, Cycle(next + 1, next));
  }

  /** while ( condition ) { body } */
  lemma WhileBlock(expr: ExpressionCode, condition: seq<Token>, body: seq<Node>, next: nat, targets: Targets)
    requires Nests(condition, 0) && condition != [] && body != []
    ensures LowerNode(expr, WhileCycle(Headed("while", condition, []), body), next, targets)
         == match LowerAll(expr, body, next + 2, Cycle(next + 1, next))
            case Some(inner) =>
              Some(Lowered([Mark(next)] + PlainCode(expr(condition)) + [GotoUnless(next + 1)] + inner.code + [Goto(next), Mark(next + 1)],
                           inner.next))
            case None => None
  {
    hide LowerAll, SplitHeader, Headed;
    HeadedSplits("while", condition, []);
    var r := LowerAll(expr, body, next + 2, Cycle(next + 1, next));
    if r.Some? {
      var x := [Mark(next)] + PlainCode(expr(condition)) + [GotoUnless(next + 1)] + r.value.code + [Goto(next), Mark(next + 1)];
      assert x + [] == x;
    }
  }
}
