/** Structured programs of expression trees: how they are written down, and what they mean statement by statement. */
module SourceTrees {
  import opened Words
  import opened ByteCode
  import opened Pseudo
  import opened Syntax
  import opened LoweringSpec
  import opened StructuredMeaning
  import opened StackEvaluator
  import opened CompiledProgram
  import opened ProgramToMachine
  import opened SourceProgram
  import E = Expressions
  import L = Literals
  import P = PrintedTrees
  import OwnLines
  import RT = RawTokens
  import PS = PostfixSpec
  import S = SourceExpressions
  import T = ExpressionsTranslator
  import Tokens

  // ----- programs -----

  /**
   * An assignment, a break or continue, a brace, an if with its elifs and perhaps an else, a cycle with a block, a cycle with a statement on its
   * line and a block behind it, which is not part of the cycle.
   */
  datatype Statement =
    | Assigns(e: P.Tree)
    | Leave(isBreak: bool)
    | Brace(opens: bool)
    | Choice(cases: seq<Case>)
    | While(condition: P.Tree, body: seq<Statement>)
    | LineWhile(condition: P.Tree, line: seq<Statement>, after: seq<Statement>)

  /** The body is a block, or a statement on the line of the case. */
  datatype Case = When(condition: P.Tree, ownLine: bool, body: seq<Statement>) | Otherwise(ownLine: bool, body: seq<Statement>)

  predicate IsLine(p: seq<Statement>) {
    |p| == 1 && (p[0].Assigns? || p[0].Leave?)
  }

  // ----- written down -----

  /** keyword ( condition ) line */
  function Header(word: string, condition: P.Tree, line: seq<Tokens.Token>): seq<Tokens.Token> {
    OwnLines.Headed(word, RT.SourceOf(condition), line)
  }

  function LineTokens(p: seq<Statement>): seq<Tokens.Token> {
    if p == [] then []
    else
      match p[0]
      case Assigns(e) => RT.SourceOf(e)
      case Leave(isBreak) => [OwnLines.Keyword(if isBreak then "break" else "continue")]
      case _ => []
  }

  function Print(st: Statement): Node
    decreases st, 0
  {
    match st
    case Assigns(e) => Expression(RT.SourceOf(e))
    case Leave(isBreak) => Expression([OwnLines.Keyword(if isBreak then "break" else "continue")])
    case Brace(opens) => ScopeMark(opens)
    case Choice(cases) => IfGroup(PrintCases(cases, true))
    case While(condition, body) => WhileCycle(Header("while", condition, []), PrintAll(body))
    case LineWhile(condition, line, after) => WhileCycle(Header("while", condition, LineTokens(line)), PrintAll(after))
  }

  function PrintAll(p: seq<Statement>): (nodes: seq<Node>)
    ensures |nodes| == |p|
    decreases p, 0
  {
    if p == [] then [] else [Print(p[0])] + PrintAll(p[1..])
  }

  function PrintCase(c: Case, first: bool): Clause
    decreases c, 0
  {
    match c
    case When(condition, ownLine, body) =>
      Clause(if first then If else Elif, Header(if first then "if" else "elif", condition, CaseLine(c)), if ownLine then [] else PrintAll(body))
    case Otherwise(ownLine, body) => Clause(Else, [OwnLines.Keyword("else")] + CaseLine(c), if ownLine then [] else PrintAll(body))
  }

  function CaseLine(c: Case): seq<Tokens.Token> {
    if c.ownLine then LineTokens(c.body) else []
  }

  function PrintCases(cases: seq<Case>, first: bool): (clauses: seq<Clause>)
    ensures |clauses| == |cases|
    decreases cases, 0
  {
    if cases == [] then [] else [PrintCase(cases[0], first)] + PrintCases(cases[1..], false)
  }

  // ----- what makes a program -----

  /** The names, the texts of the literals, and where variables and literals are. */
  datatype World = World(names: T.Names, table: seq<Tokens.Text>, decode: L.Decoder, ctx: Context)

  ghost predicate WorldOk(w: World) {
    ContextOk(w.ctx) && L.Carries(w.ctx, w.table, w.decode)
  }

  /** An assignment to known variables whose literals are in the table. */
  predicate AssignmentIn(w: World, e: P.Tree) {
    && P.TreeOk(e, false) && L.Stores(w.names, w.ctx, e)
    && S.DenotedAssignment(w.names, e, w.table).Assigns? && S.DenotedAssignment(w.names, e, w.table).constants == w.table
  }

  /** An expression of known variables and literals of the table. */
  predicate ConditionIn(w: World, e: P.Tree) {
    && P.TreeOk(e, false) && L.Operates(w.names, e)
    && S.Denoted(w.names, e, w.table).Denotes? && S.Denoted(w.names, e, w.table).constants == w.table
  }

  /** Only the last case is an else, and the first is none; a cycle has a block; a line holds an assignment, a break or a continue. */
  predicate StatementOk(w: World, st: Statement)
    decreases st, 0
  {
    match st
    case Assigns(e) => AssignmentIn(w, e)
    case Leave(_) => true
    case Brace(_) => true
    case Choice(cases) => cases != [] && cases[0].When? && CasesOk(w, cases)
    case While(condition, body) => ConditionIn(w, condition) && body != [] && AllOk(w, body)
    case LineWhile(condition, line, after) => ConditionIn(w, condition) && IsLine(line) && AllOk(w, line) && after != [] && AllOk(w, after)
  }

  predicate AllOk(w: World, p: seq<Statement>)
    decreases p, 0
  {
    p == [] || (StatementOk(w, p[0]) && AllOk(w, p[1..]))
  }

  predicate CasesOk(w: World, cases: seq<Case>)
    decreases cases, 0
  {
    cases == [] || ((cases[0].ownLine ==> IsLine(cases[0].body))
                    && match cases[0]
                       case When(condition, _, body) => ConditionIn(w, condition) && AllOk(w, body) && CasesOk(w, cases[1..])
                       case Otherwise(_, body) => AllOk(w, body) && cases[1..] == [])
  }

  /** Every break and continue is inside a cycle. */
  predicate Inside(st: Statement)
    decreases st, 0
  {
    match st
    case Leave(_) => false
    case Choice(cases) => CasesInside(cases)
    case LineWhile(_, _, after) => AllInside(after)
    case _ => true
  }

  predicate AllInside(p: seq<Statement>)
    decreases p, 0
  {
    p == [] || (Inside(p[0]) && AllInside(p[1..]))
  }

  predicate CasesInside(cases: seq<Case>)
    decreases cases, 0
  {
    cases == [] || (AllInside(cases[0].body) && CasesInside(cases[1..]))
  }

  // ----- what a program does -----

  /** Memory between statements; nothing is done any more after a division by zero, or an operation on something without a value. */
  datatype State = Mem(mem: Memory) | Divided | Untyped

  ghost predicate Fits(w: World, s: State) {
    s.Mem? ==> |s.mem| == w.ctx.space.end
  }

  ghost predicate OutcomeFits(w: World, o: Outcome<State>) {
    !o.Unfinished? ==> Fits(w, o.s)
  }

  lemma WorldFits(w: World)
    requires WorldOk(w)
    ensures ContextOk(w.ctx) && |w.ctx.layout.constantAddresses| == |w.table|
  {
    L.CarriedLength(w.ctx, w.table, w.decode);
  }

  ghost function Assigned(w: World, e: P.Tree, s: State): (r: State)
    requires WorldOk(w) && AssignmentIn(w, e) && Fits(w, s)
    ensures Fits(w, r)
  {
    if !s.Mem? then s
    else
      WorldFits(w);
      match L.TreeEffect(w.names, w.ctx, s.mem, w.decode, L.AddressIn(w.ctx, w.table), e)
      case Wrote(mem) => Mem(mem)
      case Failed(answer) => if answer.DividesByZero? then Divided else Untyped
  }

  ghost function Answered(w: World, e: P.Tree, mem: Memory): E.Answer
    requires WorldOk(w) && ConditionIn(w, e) && |mem| == w.ctx.space.end
  {
    WorldFits(w);
    L.TreeValue(w.names, w.ctx, mem, w.decode, L.AddressIn(w.ctx, w.table), e)
  }

  /** A condition holds when its value is not zero. */
  ghost predicate Holds(w: World, e: P.Tree, s: State)
    requires WorldOk(w) && ConditionIn(w, e) && Fits(w, s)
  {
    s.Mem? && Answered(w, e, s.mem).Answer? && Answered(w, e, s.mem).value.bits != 0
  }

  ghost function Asked(w: World, e: P.Tree, s: State): (r: State)
    requires WorldOk(w) && ConditionIn(w, e) && Fits(w, s)
    ensures Fits(w, r)
  {
    if !s.Mem? || Answered(w, e, s.mem).Answer? then s else if Answered(w, e, s.mem).DividesByZero? then Divided else Untyped
  }

  ghost function RunStatement(w: World, st: Statement, s: State, fuel: nat): (o: Outcome<State>)
    requires WorldOk(w) && StatementOk(w, st) && Fits(w, s)
    ensures OutcomeFits(w, o)
    decreases fuel, st, 0
  {
    match st
    case Assigns(e) => Normal(Assigned(w, e, s))
    case Leave(isBreak) => if isBreak then Broke(s) else Continued(s)
    case Brace(_) => Normal(s)
    case Choice(cases) => RunCases(w, cases, s, fuel)
    case While(condition, body) => RunLoop(w, condition, body, s, fuel)
    case LineWhile(condition, line, after) =>
      (match RunLoop(w, condition, line, s, fuel)
       case Normal(s') => RunAll(w, after, s', fuel)
       case o => o)
  }

  ghost function RunAll(w: World, p: seq<Statement>, s: State, fuel: nat): (o: Outcome<State>)
    requires WorldOk(w) && AllOk(w, p) && Fits(w, s)
    ensures OutcomeFits(w, o)
    decreases fuel, p, 0
  {
    if p == [] then Normal(s)
    else
      match RunStatement(w, p[0], s, fuel)
      case Normal(s') => RunAll(w, p[1..], s', fuel)
      case o => o
  }

  /** The first case whose condition holds runs, otherwise the else, if there is one. */
  ghost function RunCases(w: World, cases: seq<Case>, s: State, fuel: nat): (o: Outcome<State>)
    requires WorldOk(w) && CasesOk(w, cases) && Fits(w, s)
    ensures OutcomeFits(w, o)
    decreases fuel, cases, 0
  {
    if cases == [] then Normal(s)
    else
      match cases[0]
      case When(condition, _, body) =>
        if Holds(w, condition, s) then RunAll(w, body, Asked(w, condition, s), fuel)
        else RunCases(w, cases[1..], Asked(w, condition, s), fuel)
      case Otherwise(_, body) => RunAll(w, body, s, fuel)
  }

  ghost function RunLoop(w: World, condition: P.Tree, body: seq<Statement>, s: State, fuel: nat): (o: Outcome<State>)
    requires WorldOk(w) && ConditionIn(w, condition) && AllOk(w, body) && Fits(w, s)
    ensures OutcomeFits(w, o)
    decreases fuel, body, 1
  {
    if fuel == 0 then Unfinished
    else if !Holds(w, condition, s) then Normal(Asked(w, condition, s))
    else
      match RunAll(w, body, Asked(w, condition, s), fuel - 1)
      case Normal(s') => RunLoop(w, condition, body, s', fuel - 1)
      case Continued(s') => RunLoop(w, condition, body, s', fuel - 1)
      case Broke(s') => Normal(s')
      case Unfinished => Unfinished
  }

  /** Run from this memory, the program comes to its end in this state, after some number of rounds of its cycles. */
  ghost predicate EndsIn(w: World, p: seq<Statement>, mem: Memory, s: State)
    requires WorldOk(w) && AllOk(w, p) && |mem| == w.ctx.space.end
  {
    exists fuel: nat :: RunAll(w, p, Mem(mem), fuel) == Normal(s)
  }

  // ----- parentheses of written conditions -----

  /** The tokens close what they open. */
  ghost predicate Even(tokens: seq<Tokens.Token>) {
    forall rest, d: nat :: Nests(tokens + rest, d) == Nests(rest, d)
  }

  lemma EvenNothing()
    ensures Even([])
  {
    forall rest: seq<Tokens.Token>, d: nat
      ensures Nests([] + rest, d) == Nests(rest, d)
    {
      assert [] + rest == rest;
    }
  }

  lemma EvenAppend(a: seq<Tokens.Token>, b: seq<Tokens.Token>)
    requires Even(a) && Even(b)
    ensures Even(a + b)
  {
    forall rest, d: nat
      ensures Nests(a + b + rest, d) == Nests(rest, d)
    {
      assert a + b + rest == a + (b + rest);
    }
  }

  lemma EvenOne(t: Tokens.Token)
    requires !Tokens.IsDelimiter(t, Tokens.LParen) && !Tokens.IsDelimiter(t, Tokens.RParen)
    ensures Even([t])
  {
    forall rest, d: nat
      ensures Nests([t] + rest, d) == Nests(rest, d)
    {
      assert ([t] + rest)[1..] == rest;
    }
  }

  lemma EvenEnclosed(open: Tokens.Token, x: seq<Tokens.Token>, close: Tokens.Token)
    requires Even(x) && Tokens.IsDelimiter(open, Tokens.LParen) && Tokens.IsDelimiter(close, Tokens.RParen)
    ensures Even([open] + x + [close])
  {
    forall rest, d: nat
      ensures Nests([open] + x + [close] + rest, d) == Nests(rest, d)
    {
      var tail := [close] + rest;
      assert tail[0] == close && tail[1..] == rest;
      var all := [open] + x + [close] + rest;
      assert all[0] == open && all[1..] == x + tail;
    }
  }

  lemma {:induction false} WrittenAppend(a: seq<PS.Group>, b: seq<PS.Group>)
    requires RT.AllWritable(a) && RT.AllWritable(b)
    ensures RT.AllWritable(a + b) && RT.Written(a + b) == RT.Written(a) + RT.Written(b)
    decreases |a|
  {
    if a == [] {
      assert a + b == b;
    } else {
      assert (a + b)[0] == a[0] && (a + b)[1..] == a[1..] + b;
      WrittenAppend(a[1..], b);
    }
  }

  lemma EvenChild(bare: bool, x: seq<PS.Group>)
    requires RT.AllWritable(x) && Even(RT.Written(x))
    ensures RT.AllWritable(P.Child(bare, x)) && Even(RT.Written(P.Child(bare, x)))
  {
    if !bare {
      var open, close := P.Mark(Tokens.LParen), P.Mark(Tokens.RParen);
      WrittenOne(open.token);
      WrittenOne(close.token);
      WrittenAppend([open], x);
      WrittenAppend([open] + x, [close]);
      EvenEnclosed(open.token, RT.Written(x), close.token);
    }
  }

  lemma WrittenOne(t: Tokens.Token)
    requires !RT.IsScope(t)
    ensures RT.AllWritable([PS.Simple(t)]) && RT.Written([PS.Simple(t)]) == [t]
  {
    assert [PS.Simple(t)][1..] == [];
  }

  lemma EvenOperator(op: Tokens.Symbol)
    requires op != Tokens.Scope
    ensures RT.AllWritable([P.OpToken(op)]) && Even(RT.Written([P.OpToken(op)]))
  {
    WrittenOne(P.OpToken(op).token);
    EvenOne(P.OpToken(op).token);
  }

  lemma EvenRow(x: seq<PS.Group>, y: seq<PS.Group>)
    requires RT.AllWritable(x) && RT.AllWritable(y) && Even(RT.Written(x)) && Even(RT.Written(y))
    ensures RT.AllWritable(x + y) && Even(RT.Written(x + y))
  {
    WrittenAppend(x, y);
    EvenAppend(RT.Written(x), RT.Written(y));
  }

  /** A printed tree closes the parentheses that it opens. */
  lemma {:induction false} PrintedIsEven(e: P.Tree)
    requires P.TreeOk(e, false) && S.OfTokens(e)
    ensures RT.AllWritable(P.Print(e)) && Even(RT.Written(P.Print(e)))
    decreases e
  {
    hide Even, RT.AllWritable, RT.Written, P.Child;
    match e
    case Leaf(g) =>
      WrittenOne(g.token);
      EvenOne(g.token);
    case Infix(op, l, r) =>
      PrintedIsEven(l);
      PrintedIsEven(r);
      EvenChild(P.BareLeft(op, l), P.Print(l));
      EvenChild(P.BareRight(op, r), P.Print(r));
      EvenOperator(op);
      EvenRow(P.Child(P.BareLeft(op, l), P.Print(l)), [P.OpToken(op)]);
      EvenRow(P.Child(P.BareLeft(op, l), P.Print(l)) + [P.OpToken(op)], P.Child(P.BareRight(op, r), P.Print(r)));
    case Prefix(op, a) =>
      PrintedIsEven(a);
      EvenChild(P.BareArg(op, a), P.Print(a));
      EvenOperator(op);
      EvenRow([P.OpToken(op)], P.Child(P.BareArg(op, a), P.Print(a)));
    case Paren(a) =>
      PrintedIsEven(a);
      EvenChild(false, P.Print(a));
      Enclosed(P.Print(a));
  }

  lemma Enclosed(x: seq<PS.Group>)
    ensures P.Child(false, x) == [P.Mark(Tokens.LParen)] + x + [P.Mark(Tokens.RParen)]
  {
  }

  /** A written header is split back into the tokens of its condition and those behind it. */
  lemma HeaderSplits(w: World, word: string, e: P.Tree, line: seq<Tokens.Token>)
    requires ConditionIn(w, e)
    ensures HeaderOk(Header(word, e, line)) && Tokens.IsDelimiter(Header(word, e, line)[1], Tokens.LParen)
    ensures Header(word, e, line)[0] == OwnLines.Keyword(word)
    ensures SplitHeader(Header(word, e, line)) == Syntax.Header(RT.SourceOf(e), line)
  {
    hide L.Operates, S.Denoted, P.TreeOk, Nests, SplitFrom;
    S.DenotedOfTokens(w.names, e, w.table);
    PrintedIsEven(e);
    EvenNests(RT.SourceOf(e));
    S.PrintedLength(e);
    RT.WrittenBounded(P.Print(e));
    OwnLines.HeadedSplits(word, RT.SourceOf(e), line);
  }

  lemma EvenNests(tokens: seq<Tokens.Token>)
    requires Even(tokens)
    ensures Nests(tokens, 0)
  {
    assert tokens + [] == tokens;
    assert Nests([], 0);
  }
}
