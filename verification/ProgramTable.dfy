/** The constants of a whole program, interned in the order in which its statements and conditions are translated. */
module ProgramTable {
  import opened Words
  import opened LoweringSpec
  import opened SourceProgram
  import opened SourceTrees
  import opened TreePrograms
  import L = Literals
  import P = PrintedTrees
  import RT = RawTokens
  import S = SourceExpressions
  import T = ExpressionsTranslator
  import Tokens

  // ----- the table after each part of a program -----

  function AfterAssignment(names: T.Names, e: P.Tree, constants: seq<Tokens.Text>): seq<Tokens.Text> {
    match S.DenotedAssignment(names, e, constants) case Assigns(_, k) => k case NotAssigning => constants
  }

  function AfterCondition(names: T.Names, e: P.Tree, constants: seq<Tokens.Text>): seq<Tokens.Text> {
    match S.Denoted(names, e, constants) case Denotes(_, k) => k case Unsupported => constants
  }

  function Interned(names: T.Names, st: Statement, constants: seq<Tokens.Text>): seq<Tokens.Text>
    decreases st, 0
  {
    match st
    case Assigns(e) => AfterAssignment(names, e, constants)
    case Leave(_) => constants
    case Brace(_) => constants
    case Choice(cases) => CasesInterned(names, cases, constants)
    case While(condition, body) => AllInterned(names, body, AfterCondition(names, condition, constants))
    case LineWhile(condition, line, after) =>
      AllInterned(names, after, AllInterned(names, line, AfterCondition(names, condition, constants)))
  }

  function AllInterned(names: T.Names, p: seq<Statement>, constants: seq<Tokens.Text>): seq<Tokens.Text>
    decreases p, 0
  {
    if p == [] then constants else AllInterned(names, p[1..], Interned(names, p[0], constants))
  }

  function CaseOpened(names: T.Names, c: Case, constants: seq<Tokens.Text>): seq<Tokens.Text> {
    if c.When? then AfterCondition(names, c.condition, constants) else constants
  }

  function CasesInterned(names: T.Names, cases: seq<Case>, constants: seq<Tokens.Text>): seq<Tokens.Text>
    decreases cases, 0
  {
    if cases == [] then constants
    else CasesInterned(names, cases[1..], AllInterned(names, cases[0].body, CaseOpened(names, cases[0], constants)))
  }

  // ----- programs, whatever their constants -----

  predicate ShapeOk(w: World, st: Statement)
    decreases st, 0
  {
    match st
    case Assigns(e) => P.TreeOk(e, false) && L.Stores(w.names, w.ctx, e)
    case Leave(_) => true
    case Brace(_) => true
    case Choice(cases) => cases != [] && cases[0].When? && CasesShapeOk(w, cases)
    case While(condition, body) => P.TreeOk(condition, false) && L.Operates(w.names, condition) && body != [] && AllShapeOk(w, body)
    case LineWhile(condition, line, after) =>
      && P.TreeOk(condition, false) && L.Operates(w.names, condition) && IsLine(line) && AllShapeOk(w, line)
      && after != [] && AllShapeOk(w, after)
  }

  predicate AllShapeOk(w: World, p: seq<Statement>)
    decreases p, 0
  {
    p == [] || (ShapeOk(w, p[0]) && AllShapeOk(w, p[1..]))
  }

  predicate CasesShapeOk(w: World, cases: seq<Case>)
    decreases cases, 0
  {
    cases == []
    || ((cases[0].ownLine ==> IsLine(cases[0].body))
        && match cases[0]
           case When(condition, _, body) =>
             P.TreeOk(condition, false) && L.Operates(w.names, condition) && AllShapeOk(w, body) && CasesShapeOk(w, cases[1..])
           case Otherwise(_, body) => AllShapeOk(w, body) && cases[1..] == [])
  }

  // ----- the code given to each tree in its turn -----

  /** Translated with the constants interned so far, the tokens get the code that the finished table gives them, and the next constants. */
  predicate Turn(w: World, e: P.Tree, constants: seq<Tokens.Text>, next: seq<Tokens.Text>) {
    S.Translation(w.names, RT.SourceOf(e), constants) == T.Emission(Code(w)(RT.SourceOf(e)), next)
  }

  predicate InTurn(w: World, st: Statement, constants: seq<Tokens.Text>)
    decreases st, 0
  {
    match st
    case Assigns(e) => Turn(w, e, constants, AfterAssignment(w.names, e, constants))
    case Leave(_) => true
    case Brace(_) => true
    case Choice(cases) => CasesInTurn(w, cases, constants)
    case While(condition, body) =>
      var k := AfterCondition(w.names, condition, constants);
      Turn(w, condition, constants, k) && AllInTurn(w, body, k)
    case LineWhile(condition, line, after) =>
      var k := AfterCondition(w.names, condition, constants);
      Turn(w, condition, constants, k) && AllInTurn(w, line, k) && AllInTurn(w, after, AllInterned(w.names, line, k))
  }

  predicate AllInTurn(w: World, p: seq<Statement>, constants: seq<Tokens.Text>)
    decreases p, 0
  {
    p == [] || (InTurn(w, p[0], constants) && AllInTurn(w, p[1..], Interned(w.names, p[0], constants)))
  }

  predicate CasesInTurn(w: World, cases: seq<Case>, constants: seq<Tokens.Text>)
    decreases cases, 0
  {
    cases == []
    || (var k := CaseOpened(w.names, cases[0], constants);
        && (cases[0].When? ==> Turn(w, cases[0].condition, constants, k)) && AllInTurn(w, cases[0].body, k)
        && CasesInTurn(w, cases[1..], AllInterned(w.names, cases[0].body, k)))
  }

  // ----- the table only grows -----

  lemma {:induction false} StoresSays(w: World, e: P.Tree, constants: seq<Tokens.Text>)
    requires L.Stores(w.names, w.ctx, e)
    ensures S.DenotedAssignment(w.names, e, constants).Assigns? && constants <= S.DenotedAssignment(w.names, e, constants).constants
    decreases e
  {
    hide S.Denoted, L.Operates;
    match e
    case Paren(a) => StoresSays(w, a, constants);
    case Infix(op, l, r) =>
      if S.IsAssignment(S.Bare(r)) {
        StoresSays(w, r, constants);
      } else {
        L.OperatesSays(w.names, r, constants);
        L.ConstantsGrow(w.names, r, constants);
      }
  }

  lemma ConditionSays(w: World, e: P.Tree, constants: seq<Tokens.Text>)
    requires L.Operates(w.names, e)
    ensures S.Denoted(w.names, e, constants).Denotes? && constants <= AfterCondition(w.names, e, constants)
  {
    hide S.Denoted, L.Operates;
    L.OperatesSays(w.names, e, constants);
    L.ConstantsGrow(w.names, e, constants);
  }

  lemma PrefixThen<X>(a: seq<X>, b: seq<X>, c: seq<X>)
    requires a <= b <= c
    ensures a <= c
  {
  }

  lemma {:induction false} StatementGrows(w: World, st: Statement, constants: seq<Tokens.Text>)
    requires ShapeOk(w, st)
    ensures constants <= Interned(w.names, st, constants)
    decreases st, 0
  {
    hide L.Operates, L.Stores, P.TreeOk, S.Denoted, S.DenotedAssignment, AllInterned, CasesInterned, AfterCondition, AllShapeOk, CasesShapeOk;
    match st
    case Assigns(e) => StoresSays(w, e, constants);
    case Leave(_) =>
    case Brace(_) =>
    case Choice(cases) => CasesGrow(w, cases, constants);
    case While(condition, body) =>
      ConditionSays(w, condition, constants);
      var k := AfterCondition(w.names, condition, constants);
      AllGrow(w, body, k);
      PrefixThen(constants, k, AllInterned(w.names, body, k));
    case LineWhile(condition, line, after) =>
      ConditionSays(w, condition, constants);
      var k := AfterCondition(w.names, condition, constants);
      AllGrow(w, line, k);
      var k2 := AllInterned(w.names, line, k);
      PrefixThen(constants, k, k2);
      AllGrow(w, after, k2);
      PrefixThen(constants, k2, AllInterned(w.names, after, k2));
  }

  lemma {:induction false} AllGrow(w: World, p: seq<Statement>, constants: seq<Tokens.Text>)
    requires AllShapeOk(w, p)
    ensures constants <= AllInterned(w.names, p, constants)
    decreases p, 0
  {
    hide ShapeOk, Interned;
    if p != [] {
      var k := Interned(w.names, p[0], constants);
      StatementGrows(w, p[0], constants);
      AllGrow(w, p[1..], k);
      PrefixThen(constants, k, AllInterned(w.names, p[1..], k));
    }
  }

  lemma {:induction false} CasesGrow(w: World, cases: seq<Case>, constants: seq<Tokens.Text>)
    requires CasesShapeOk(w, cases)
    ensures constants <= CasesInterned(w.names, cases, constants)
    decreases cases, 0
  {
    hide L.Operates, P.TreeOk, AfterCondition, AllInterned, AllShapeOk;
    if cases != [] {
      var c := cases[0];
      if c.When? {
        ConditionSays(w, c.condition, constants);
      }
      var k := CaseOpened(w.names, c, constants);
      AllGrow(w, c.body, k);
      var k2 := AllInterned(w.names, c.body, k);
      PrefixThen(constants, k, k2);
      CasesGrow(w, cases[1..], k2);
      PrefixThen(constants, k2, CasesInterned(w.names, cases, constants));
    }
  }

  // ----- with the finished table -----

  lemma AssignmentTurn(w: World, e: P.Tree, constants: seq<Tokens.Text>)
    requires P.TreeOk(e, false) && L.Stores(w.names, w.ctx, e) && AfterAssignment(w.names, e, constants) <= w.table
    ensures AssignmentIn(w, e) && Turn(w, e, constants, AfterAssignment(w.names, e, constants))
  {
    hide L.Stores, P.TreeOk, S.DenotedAssignment, SourceCode, S.Translation;
    StoresSays(w, e, constants);
    StableAssignment(w.names, e, constants, w.table);
    CodeInTurn(w.names, e, constants, w.table);
  }

  lemma ConditionTurn(w: World, e: P.Tree, constants: seq<Tokens.Text>)
    requires P.TreeOk(e, false) && L.Operates(w.names, e) && AfterCondition(w.names, e, constants) <= w.table
    ensures ConditionIn(w, e) && Turn(w, e, constants, AfterCondition(w.names, e, constants))
  {
    hide L.Operates, P.TreeOk, S.Denoted, SourceCode, S.Translation;
    ConditionSays(w, e, constants);
    StableExpression(w.names, e, constants, w.table);
    CodeInTurn(w.names, e, constants, w.table);
  }

  /**
   * When the table holds all constants of a program, interned as they are met, every literal is in it, and every statement and condition is
   * given in its turn, with the constants so far, the code that the whole table gives it.
   */
  lemma {:induction false} StatementTurns(w: World, st: Statement, constants: seq<Tokens.Text>)
    requires ShapeOk(w, st) && Interned(w.names, st, constants) <= w.table
    ensures StatementOk(w, st) && InTurn(w, st, constants)
    decreases st, 0
  {
    hide L.Operates, L.Stores, P.TreeOk, AfterAssignment, AfterCondition, AllInterned, CasesInterned, AssignmentIn, ConditionIn, Turn, AllShapeOk,
         CasesShapeOk, AllOk, CasesOk, AllInTurn, CasesInTurn;
    match st
    case Assigns(e) => AssignmentTurn(w, e, constants);
    case Leave(_) =>
    case Brace(_) =>
    case Choice(cases) => CasesTurn(w, cases, constants);
    case While(condition, body) =>
      var k := AfterCondition(w.names, condition, constants);
      AllGrow(w, body, k);
      PrefixThen(k, AllInterned(w.names, body, k), w.table);
      ConditionTurn(w, condition, constants);
      AllTurn(w, body, k);
    case LineWhile(condition, line, after) =>
      var k := AfterCondition(w.names, condition, constants);
      AllGrow(w, line, k);
      var k2 := AllInterned(w.names, line, k);
      AllGrow(w, after, k2);
      PrefixThen(k2, AllInterned(w.names, after, k2), w.table);
      PrefixThen(k, k2, w.table);
      ConditionTurn(w, condition, constants);
      AllTurn(w, line, k);
      AllTurn(w, after, k2);
  }

  lemma {:induction false} AllTurn(w: World, p: seq<Statement>, constants: seq<Tokens.Text>)
    requires AllShapeOk(w, p) && AllInterned(w.names, p, constants) <= w.table
    ensures AllOk(w, p) && AllInTurn(w, p, constants)
    decreases p, 0
  {
    hide ShapeOk, Interned, StatementOk, InTurn;
    if p != [] {
      var k := Interned(w.names, p[0], constants);
      AllGrow(w, p[1..], k);
      PrefixThen(k, AllInterned(w.names, p[1..], k), w.table);
      StatementTurns(w, p[0], constants);
      AllTurn(w, p[1..], k);
    }
  }

  lemma {:induction false} CasesTurn(w: World, cases: seq<Case>, constants: seq<Tokens.Text>)
    requires CasesShapeOk(w, cases) && CasesInterned(w.names, cases, constants) <= w.table
    ensures CasesOk(w, cases) && CasesInTurn(w, cases, constants)
    decreases cases, 0
  {
    hide L.Operates, P.TreeOk, AfterCondition, AllInterned, ConditionIn, Turn, AllShapeOk, AllOk, AllInTurn;
    if cases != [] {
      var c, rest := cases[0], cases[1..];
      var k := CaseOpened(w.names, c, constants);
      var k2 := AllInterned(w.names, c.body, k);
      CasesGrow(w, rest, k2);
      PrefixThen(k2, CasesInterned(w.names, cases, constants), w.table);
      AllGrow(w, c.body, k);
      PrefixThen(k, k2, w.table);
      if c.When? {
        ConditionTurn(w, c.condition, constants);
      }
      AllTurn(w, c.body, k);
      CasesTurn(w, rest, k2);
    }
  }
}
