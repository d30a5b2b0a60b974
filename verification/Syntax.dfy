/** The syntax tree that the control-flow translation walks. */
module Syntax {

  import opened Tokens

  datatype ClauseKind = If | Elif | Else | OtherClause

  /** A statement. Expressions have tokens only; the other nodes have their header's tokens and children. */
  datatype Node =
    | Expression(tokens: seq<Token>)
    | ScopeMark(opens: bool)
    | Block(children: seq<Node>)
    | IfGroup(clauses: seq<Clause>)
    | WhileCycle(header: seq<Token>, body: seq<Node>)

  datatype Clause = Clause(kind: ClauseKind, tokens: seq<Token>, body: seq<Node>)

  // ----- headers: keyword ( condition ) statement -----

  datatype Header = Header(condition: seq<Token>, statement: seq<Token>)

  /** The tokens before the parenthesis that closes the first one belong to the condition, those after to the statement. */
  function SplitFrom(tokens: seq<Token>, depth: int, building: bool): Header
    decreases |tokens|
  {
    if tokens == [] then Header([], [])
    else
      var t, rest := tokens[0], tokens[1..];
      if !building then
        var h := SplitFrom(rest, depth, false); h.(statement := [t] + h.statement)
      else if IsDelimiter(t, LParen) && depth == 0 then SplitFrom(rest, 1, true)
      else if IsDelimiter(t, RParen) && depth == 1 then SplitFrom(rest, 0, false)
      else
        var depth' := if IsDelimiter(t, LParen) then depth + 1 else if IsDelimiter(t, RParen) then depth - 1 else depth;
        var h := SplitFrom(rest, depth', true);
        h.(condition := [t] + h.condition)
  }

  function SplitHeader(tokens: seq<Token>): Header
    requires tokens != []
  {
    SplitFrom(tokens[1..], 0, true)
  }

  /** How far the parentheses of some tokens go below the depth they start at never reaches one. */
  predicate Nests(tokens: seq<Token>, depth: nat)
    decreases |tokens|
  {
    if tokens == [] then depth == 0
    else if IsDelimiter(tokens[0], LParen) then Nests(tokens[1..], depth + 1)
    else if IsDelimiter(tokens[0], RParen) then depth > 0 && Nests(tokens[1..], depth - 1)
    else Nests(tokens[1..], depth)
  }

  lemma {:induction false} SplitStatement(tokens: seq<Token>, depth: int)
    ensures SplitFrom(tokens, depth, false) == Header([], tokens)
    decreases |tokens|
  {
    if tokens != [] {
      SplitStatement(tokens[1..], depth);
      assert [tokens[0]] + tokens[1..] == tokens;
    }
  }

  lemma {:induction false} SplitCondition(condition: seq<Token>, close: Token, statement: seq<Token>, depth: nat)
    requires Nests(condition, depth) && IsDelimiter(close, RParen)
    ensures SplitFrom(condition + [close] + statement, depth + 1, true) == Header(condition, statement)
    decreases |condition|
  {
    var tokens := condition + [close] + statement;
    if condition == [] {
      assert tokens[0] == close && tokens[1..] == statement;
      SplitStatement(statement, 0);
    } else {
      assert tokens[0] == condition[0] && tokens[1..] == condition[1..] + [close] + statement;
      var depth' := if IsDelimiter(condition[0], LParen) then depth + 1 else if IsDelimiter(condition[0], RParen) then depth - 1 else depth;
      SplitCondition(condition[1..], close, statement, depth');
      assert [condition[0]] + condition[1..] == condition;
    }
  }

  /** A header written as keyword ( condition ) statement, with nested parentheses closed, is split back into its parts. */
  lemma HeaderRoundTrip(keyword: Token, open: Token, condition: seq<Token>, close: Token, statement: seq<Token>)
    requires IsDelimiter(open, LParen) && IsDelimiter(close, RParen) && Nests(condition, 0)
    ensures SplitHeader([keyword, open] + condition + [close] + statement) == Header(condition, statement)
  {
    var tokens := [keyword, open] + condition + [close] + statement;
    assert tokens[1..][0] == open && tokens[1..][1..] == condition + [close] + statement;
    SplitCondition(condition, close, statement, 0);
  }
}
