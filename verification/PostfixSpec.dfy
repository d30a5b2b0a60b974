/** The postfix form of a token list: a shunting yard with recursive bracket and call arguments. */
module PostfixSpec {
  import opened Tokens

  datatype GroupType =
    | Root | FunctionCall | DataAccess | ArrayLiteral | Argument | TypeName | QualifiedName | AttributeUsing | SimpleToken

  /** One token, or a group of groups. */
  datatype Group = Simple(token: Token) | Complex(kind: GroupType, parts: seq<Group>)

  function NoToken(): Token {
    Token(UndefinedToken, Name(""))
  }

  /** The token of a group; a complex group has an undefined one. */
  function TokenOf(g: Group): Token {
    if g.Simple? then g.token else NoToken()
  }

  function TextOf(g: Group): Text {
    TokenOf(g).text
  }

  predicate IsQualified(g: Group) {
    g.Complex? && g.kind == QualifiedName
  }

  predicate NamesSomething(g: Group) {
    TokenOf(g).kind == Identifier || IsQualified(g)
  }

  /** What the token at i starts. */
  function Identify(tokens: seq<Group>, i: nat): GroupType
    requires i < |tokens|
  {
    var t := TokenOf(tokens[i]);
    if NamesSomething(tokens[i]) && i + 1 < |tokens| && IsDelimiter(TokenOf(tokens[i + 1]), LParen) then FunctionCall
    else if IsDelimiter(t, LBracket) then
      if i == 0 then ArrayLiteral
      else
        var before := TokenOf(tokens[i - 1]);
        if before.kind == Operator
           || (before.kind == Delimiter && before.text != RBracket && before.text != RParen && before.text != RBrace)
        then ArrayLiteral else DataAccess
    else if t.kind == TokenType.Attribute then AttributeUsing
    else SimpleToken
  }

  // ----- the operator stack -----

  predicate IsOperator(g: Group) {
    var t := TokenOf(g);
    (t.kind == Operator || t.kind == Keyword) && t.text.Sym?
  }

  /** The operators above the last open parenthesis that give way to the arriving one; the rest stays. */
  function Waiting(ops: seq<Group>, arriving: Symbol): seq<Group> {
    if ops == [] then []
    else
      var back := TextOf(ops[|ops| - 1]);
      if back != LParen && back.Sym? && Pops(back.op, arriving) then Waiting(ops[..|ops| - 1], arriving) else ops
  }

  /** What is on the stack up to and including the last open parenthesis. */
  function UpToParen(ops: seq<Group>): seq<Group> {
    if ops == [] || TextOf(ops[|ops| - 1]) == LParen then ops else UpToParen(ops[..|ops| - 1])
  }

  lemma StacksShrink(ops: seq<Group>, arriving: Symbol)
    ensures Waiting(ops, arriving) <= ops && UpToParen(ops) <= ops
  {
  }

  /** Popping moves operators to the output, the top one first. */
  function Unwind(ops: seq<Group>): seq<Group> {
    if ops == [] then [] else [ops[|ops| - 1]] + Unwind(ops[..|ops| - 1])
  }

  /** The popped part of a stack of which a prefix stays. */
  function Moved(ops: seq<Group>, stays: seq<Group>): seq<Group>
    requires stays <= ops
  {
    Unwind(ops[|stays|..])
  }

  datatype Yard = Yard(ops: seq<Group>, out: seq<Group>)

  /** An operand goes to the output, an operator to the stack once stronger ones have left it. Other tokens are passed over. */
  function Shunt(y: Yard, g: Group): Yard {
    var t := TokenOf(g);
    if t.kind == Identifier || t.kind == Literal || IsQualified(g) then y.(out := y.out + [g])
    else if IsOperator(g) then
      StacksShrink(y.ops, t.text.op);
      var stays := Waiting(y.ops, t.text.op);
      Yard(stays + [g], y.out + Moved(y.ops, stays))
    else if t.text == LParen then y.(ops := y.ops + [g])
    else if t.text == RParen then
      StacksShrink(y.ops, New);
      var stays := UpToParen(y.ops);
      Yard(if stays == [] then [] else stays[..|stays| - 1], y.out + Moved(y.ops, stays))
    else y
  }

  // ----- type names: markers and an identifier -----

  /** The index of the token that ends a run of type markers; |tokens| when there is none. */
  function MarkersEnd(tokens: seq<Group>, j: nat): (k: nat)
    requires j <= |tokens|
    ensures j <= k <= |tokens|
    decreases |tokens| - j
  {
    if j < |tokens| && TokenOf(tokens[j]).kind == TypeMarker then MarkersEnd(tokens, j + 1) else j
  }

  /** A type name is a group of its markers and its identifier; without an identifier nothing is produced. */
  function TypeGroup(tokens: seq<Group>, i: nat): seq<Group>
    requires i < |tokens|
  {
    var k := MarkersEnd(tokens, i + 1);
    if k < |tokens| && NamesSomething(tokens[k]) then [Complex(TypeName, tokens[i..k + 1])] else []
  }

  /** Where reading goes on: after the identifier, or two tokens further when there is none. */
  function AfterType(tokens: seq<Group>, i: nat): (j: nat)
    requires i < |tokens|
    ensures i < j <= |tokens|
  {
    var k := MarkersEnd(tokens, i + 1);
    if k < |tokens| && NamesSomething(tokens[k]) then k + 1
    else if i + 2 <= |tokens| then i + 2 else |tokens|
  }

  // ----- the whole builder -----

  datatype Collected = Collected(parts: seq<Group>, index: nat)

  /** The elements of a built argument: one group, or those of a root. */
  function Elements(g: Group): seq<Group> {
    if g.Complex? && g.kind == Root then g.parts else [g]
  }

  /** A single token is its own postfix form. */
  function Build(tokens: seq<Group>): Group
    decreases |tokens|, |tokens| + 2
  {
    if |tokens| == 1 then tokens[0] else Complex(Root, Read(tokens, 0, Yard([], [])))
  }

  function Read(tokens: seq<Group>, i: nat, y: Yard): seq<Group>
    requires i <= |tokens|
    decreases |tokens|, |tokens| + 1 - i
  {
    if i == |tokens| then y.out + Unwind(y.ops)
    else
      match Identify(tokens, i)
      case FunctionCall =>
        var c := Call(tokens, i + 2, 1, [], [tokens[i]]);
        Read(tokens, c.index + 1, y.(out := y.out + [Complex(FunctionCall, c.parts)]))
      case ArrayLiteral =>
        var c := Bracket(tokens, i + 1, 1, [], []);
        Read(tokens, c.index + 1, y.(out := y.out + [Complex(ArrayLiteral, c.parts)]))
      case DataAccess =>
        var c := Bracket(tokens, i + 1, 1, [], []);
        Read(tokens, c.index + 1, y.(out := y.out + [Complex(DataAccess, c.parts)]))
      case AttributeUsing => Read(tokens, i + 1, y)
      case _ =>
        if TokenOf(tokens[i]).kind == TypeMarker
        then Read(tokens, AfterType(tokens, i), y.(out := y.out + TypeGroup(tokens, i)))
        else Read(tokens, i + 1, Shunt(y, tokens[i]))
  }

  function ArgumentOf(tokens: seq<Group>): Group
    decreases |tokens|, |tokens| + 3
  {
    Complex(Argument, Elements(Build(tokens)))
  }

  /**
   * Collects the arguments up to the closing bracket. Commas separate them at bracket depth 1, parentheses are not counted.
   * The index is that of the closing bracket, or of the last token when there is none.
   */
  function Bracket(tokens: seq<Group>, i: nat, depth: nat, args: seq<Group>, parts: seq<Group>): (c: Collected)
    requires 1 <= i <= |tokens| && |args| < i
    ensures i - 1 <= c.index < |tokens|
    decreases |tokens|, |tokens| + 1 - i
  {
    if i == |tokens| || depth == 0 then Collected(parts, i - 1)
    else
      var text := TextOf(tokens[i]);
      var depth' := if text == LBracket then depth + 1 else if text == RBracket then depth - 1 else depth;
      if (text == Comma && depth' == 1) || (text == RBracket && depth' == 0) then
        Bracket(tokens, i + 1, depth', [], if args == [] then parts else parts + [ArgumentOf(args)])
      else Bracket(tokens, i + 1, depth', if depth' > 0 then args + [tokens[i]] else args, parts)
  }

  predicate IsRoot(g: Group) {
    g.Complex? && g.kind == Root
  }

  /** Like Bracket, for a call; an argument that was a single token is not taken off the tokens collected for the next one. */
  function Call(tokens: seq<Group>, i: nat, depth: nat, args: seq<Group>, parts: seq<Group>): (c: Collected)
    requires 2 <= i <= |tokens| && |args| + 2 <= i
    ensures i - 1 <= c.index < |tokens|
    decreases |tokens|, |tokens| + 1 - i
  {
    if i == |tokens| || depth == 0 then Collected(if args == [] then parts else parts + [ArgumentOf(args)], i - 1)
    else
      var text := TextOf(tokens[i]);
      if text == Comma && depth == 1 then
        if args == [] then Collected(parts, i)
        else Call(tokens, i + 1, depth, if IsRoot(Build(args)) then [] else args, parts + [ArgumentOf(args)])
      else
        var depth' := if text == LParen then depth + 1 else if text == RParen then depth - 1 else depth;
        Call(tokens, i + 1, depth', if depth' > 0 then args + [tokens[i]] else args, parts)
  }

  // ----- qualified names -----

  /** Joins identifiers separated by the scope operator; a scope operator anywhere else is passed over. */
  function Fold(tokens: seq<Token>, i: nat, done: seq<Group>): seq<Group>
    requires i <= |tokens|
    decreases |tokens| - i
  {
    if i == |tokens| then done
    else
      var t := tokens[i];
      if t.kind == Operator && t.text == Sym(Scope) then
        if i > 0 && done != [] && i + 1 < |tokens| && tokens[i + 1].kind == Identifier then
          var last := done[|done| - 1];
          if TokenOf(last).kind == Identifier then
            Fold(tokens, i + 2, done[..|done| - 1] + [Complex(QualifiedName, [last, Simple(tokens[i + 1])])])
          else if IsQualified(last) then
            Fold(tokens, i + 2, done[..|done| - 1] + [Complex(QualifiedName, last.parts + [Simple(tokens[i + 1])])])
          else Fold(tokens, i + 1, done)
        else Fold(tokens, i + 1, done)
      else Fold(tokens, i + 1, done + [Simple(t)])
  }

  function Postfix(tokens: seq<Token>): Group {
    Build(Fold(tokens, 0, []))
  }
}
