/** Structured programs of trees, lowered, compiled, linked and started: the machine does what the trees say. */
module TreePrograms {
  import opened Words
  import opened ByteCode
  import opened Pseudo
  import opened Syntax
  import opened LoweringSpec
  import opened BreakScoping
  import opened StructuredMeaning
  import opened LoweringCorrect
  import opened StackEvaluator
  import LevelCode
  import opened CompiledProgram
  import opened ProgramToMachine
  import opened SourceProgram
  import opened SourceTrees
  import E = Expressions
  import L = Literals
  import P = PrintedTrees
  import OwnLines
  import RT = RawTokens
  import PS = PostfixSpec
  import S = SourceExpressions
  import T = ExpressionsTranslator
  import Tokens

  function Code(w: World): ExpressionCode {
    SourceCode(w.names, w.table)
  }

  // ----- states of the two executions -----

  function Res(s: State): Result {
    match s
    case Mem(mem) => InMemory(mem)
    case Divided => DivisionByZero
    case Untyped => Stuck
  }

  function Lift(o: Outcome<State>): Outcome<Result> {
    match o
    case Normal(s) => Normal(Res(s))
    case Broke(s) => Broke(Res(s))
    case Continued(s) => Continued(Res(s))
    case Unfinished => Unfinished
  }

  // ----- statements and conditions -----

  lemma {:induction false} WrittenLength(x: seq<PS.Group>)
    requires RT.AllWritable(x)
    ensures |RT.Written(x)| >= |x|
    decreases |x|
  {
    if x != [] {
      RT.OneFolds(x[0]);
      WrittenLength(x[1..]);
    }
  }

  lemma AssignmentIsLong(w: World, e: P.Tree)
    requires AssignmentIn(w, e)
    ensures !IsBreak(RT.SourceOf(e)) && !IsContinue(RT.SourceOf(e))
  {
    hide RT.AllWritable, RT.Written, L.Stores, P.TreeOk;
    if RT.AllWritable(P.Print(e)) {
      WrittenLength(P.Print(e));
    }
  }

  lemma OtherStays(w: World, ops: seq<PseudoOp>, s: State)
    requires !s.Mem?
    ensures RunOps(MeaningOf(w.ctx), ops, Res(s)) == Res(s)
  {
    OpsStay(w.ctx, ops, Res(s));
  }

  lemma AssignmentDoes(w: World, e: P.Tree, s: State)
    requires WorldOk(w) && AssignmentIn(w, e) && Fits(w, s)
    ensures LevelCode.Statement(Code(w), RT.SourceOf(e))
    ensures ExecExpression(MeaningOf(w.ctx), Code(w), RT.SourceOf(e), Res(s)) == Normal(Res(Assigned(w, e, s)))
  {
    hide SourceCode, MeaningOf, L.Stores, L.TreeEffect, S.DenotedAssignment, L.Carries, ContextOk, RunOps, P.TreeOk, L.AddressIn, LevelCode.Statement;
    AssignmentIsLong(w, e);
    WorldFits(w);
    var mem := if s.Mem? then s.mem else seq(w.ctx.space.end, i => 0);
    StatementMeaning(w.names, w.table, w.decode, w.ctx, e, mem);
    if !s.Mem? {
      OtherStays(w, Code(w)(RT.SourceOf(e)), s);
    }
  }

  lemma ConditionDoes(w: World, word: string, e: P.Tree, line: seq<Tokens.Token>, s: State)
    requires WorldOk(w) && ConditionIn(w, e) && Fits(w, s)
    ensures LevelCode.Condition(Code(w), SourceTrees.Header(word, e, line))
    ensures var m, r := MeaningOf(w.ctx), Ask(MeaningOf(w.ctx), Code(w), SourceTrees.Header(word, e, line), Res(s));
            (m.test(r) <==> Holds(w, e, s)) && m.drop(r) == Res(Asked(w, e, s))
  {
    hide SourceCode, L.Operates, L.TreeValue, S.Denoted, L.Carries, ContextOk, RunOps, P.TreeOk, L.AddressIn, SplitHeader, HeaderOk, Fetch, CellOk;
    HeaderSplits(w, word, e, line);
    WorldFits(w);
    var mem := if s.Mem? then s.mem else seq(w.ctx.space.end, i => 0);
    ConditionMeaning(w.names, w.table, w.decode, w.ctx, e, mem);
    if !s.Mem? {
      OtherStays(w, Code(w)(RT.SourceOf(e)), s);
    }
  }

  lemma BraceDoes(w: World, opens: bool, s: State)
    requires WorldOk(w) && Fits(w, s)
    ensures MeaningOf(w.ctx).act(Op(if opens then PushFrame else PopFrame), Res(s)) == Res(s)
  {
    hide ContextOk, L.Carries, EvalBinaryOp, EvalUnaryOp, EvalAssignment, CellOk;
  }

  lemma LeaveDoes(w: World, isBreak: bool, s: State)
    ensures var tokens := [OwnLines.Keyword(if isBreak then "break" else "continue")];
            && (IsBreak(tokens) || IsContinue(tokens))
            && ExecExpression(MeaningOf(w.ctx), Code(w), tokens, Res(s)) == if isBreak then Broke(Res(s)) else Continued(Res(s))
  {
    hide SourceCode, MeaningOf;
    assert "break" != "continue" by {
      assert "break"[0] != "continue"[0];
    }
  }

  // ----- the shape of written clauses -----

  lemma LineNotEmpty(w: World, e: P.Tree)
    requires AssignmentIn(w, e)
    ensures RT.SourceOf(e) != []
  {
    hide RT.AllWritable, RT.Written, L.Stores, P.TreeOk, S.DenotedAssignment, Even;
    S.AssignmentOfTokens(w.names, e, w.table);
    PrintedIsEven(e);
    WrittenLength(P.Print(e));
    AssignmentPrints(w, e);
  }

  lemma AssignmentPrints(w: World, e: P.Tree)
    requires AssignmentIn(w, e)
    ensures P.Print(e) != []
  {
    hide P.TreeOk, S.DenotedAssignment;
  }

  /** A statement on its own line has tokens, and would have the same ones alone in a block. */
  lemma LinePrinted(w: World, p: seq<Statement>)
    requires IsLine(p) && AllOk(w, p)
    ensures LineTokens(p) != [] && PrintAll(p) == [Expression(LineTokens(p))]
  {
    hide AssignmentIn, RT.SourceOf;
    if p[0].Assigns? {
      LineNotEmpty(w, p[0].e);
    }
  }

  predicate CaseOk(w: World, c: Case) {
    (c.When? ==> ConditionIn(w, c.condition)) && (c.ownLine ==> IsLine(c.body)) && AllOk(w, c.body)
  }

  lemma FirstCaseOk(w: World, cases: seq<Case>)
    requires cases != [] && CasesOk(w, cases)
    ensures CaseOk(w, cases[0])
  {
  }

  lemma CasePrinted(w: World, c: Case, first: bool)
    requires CaseOk(w, c)
    ensures var clause := PrintCase(c, first);
            && LineOf(clause) == CaseLine(c) && (c.ownLine <==> LineOf(clause) != [])
            && clause.body == (if c.ownLine then [] else PrintAll(c.body)) && (clause.kind == Else <==> c.Otherwise?)
            && (forall several :: ClauseOk(clause, several))
  {
    hide ConditionIn, SplitHeader, AllOk, IsLine, LineTokens;
    if c.ownLine {
      LinePrinted(w, c.body);
    }
    if c.When? {
      HeaderSplits(w, if first then "if" else "elif", c.condition, CaseLine(c));
    } else {
      assert PrintCase(c, first).tokens[1..] == CaseLine(c);
    }
  }

  lemma AloneExecutes<X>(m: Meaning<X>, expr: ExpressionCode, tokens: seq<Tokens.Token>, s: X, fuel: nat)
    ensures ExecAll(m, expr, [Expression(tokens)], s, fuel) == ExecExpression(m, expr, tokens, s)
  {
    hide ExecExpression;
    assert [Expression(tokens)][1..] == [];
    var o := ExecExpression(m, expr, tokens, s);
    assert ExecNode(m, expr, Expression(tokens), s, fuel) == o;
    if o.Normal? {
      assert ExecAll(m, expr, [], o.s, fuel) == o;
    }
  }

  lemma AloneLowers(expr: ExpressionCode, tokens: seq<Tokens.Token>, next: nat, targets: Targets)
    ensures LowerAll(expr, [Expression(tokens)], next, targets) == Some(Lowered(ExpressionOps(expr, tokens, targets), next))
  {
    hide ExpressionOps;
    assert [Expression(tokens)][1..] == [];
    var x := ExpressionOps(expr, tokens, targets);
    assert LowerAll(expr, [], next, targets) == Some(Lowered([], next));
    assert x + [] == x;
  }

  /** The branch of a case is its body, whether that is a block or on its line. */
  lemma BranchExecutes(w: World, c: Case, first: bool, s: Result, fuel: nat)
    requires CaseOk(w, c)
    ensures ExecBranch(MeaningOf(w.ctx), Code(w), PrintCase(c, first), s, fuel)
         == ExecAll(MeaningOf(w.ctx), Code(w), PrintAll(c.body), s, fuel)
  {
    hide MeaningOf, SourceCode, CaseOk, ExecAll, ExecExpression, LineOf, PrintCase, PrintAll, LineTokens;
    CasePrinted(w, c, first);
    if c.ownLine {
      OwnLinePrinted(w, c);
      AloneExecutes(MeaningOf(w.ctx), Code(w), CaseLine(c), s, fuel);
    }
  }

  lemma BranchLowers(w: World, c: Case, first: bool, next: nat, targets: Targets)
    requires CaseOk(w, c)
    ensures LowerBranch(Code(w), PrintCase(c, first), next, targets) == LowerAll(Code(w), PrintAll(c.body), next, targets)
  {
    hide SourceCode, CaseOk, LowerAll, ExpressionOps, LineOf, PrintCase, PrintAll, LineTokens;
    CasePrinted(w, c, first);
    if c.ownLine {
      OwnLinePrinted(w, c);
      AloneLowers(Code(w), CaseLine(c), next, targets);
    }
  }

  lemma OwnLinePrinted(w: World, c: Case)
    requires CaseOk(w, c) && c.ownLine
    ensures CaseLine(c) != [] && PrintAll(c.body) == [Expression(CaseLine(c))]
  {
    hide ConditionIn, IsLine, LineTokens, AllOk, PrintAll;
    LinePrinted(w, c.body);
  }

  lemma CasesPrinted(cases: seq<Case>, first: bool)
    requires cases != []
    ensures PrintCases(cases, first)[0] == PrintCase(cases[0], first)
    ensures PrintCases(cases, first)[1..] == PrintCases(cases[1..], false)
  {
  }

  lemma AllPrinted(p: seq<Statement>)
    requires p != []
    ensures PrintAll(p)[0] == Print(p[0]) && PrintAll(p)[1..] == PrintAll(p[1..])
  {
  }

  lemma {:induction false} LastPrinted(w: World, cases: seq<Case>, first: bool)
    requires cases != [] && CasesOk(w, cases)
    ensures var last := PrintCases(cases, first)[|cases| - 1]; LineOf(last) == [] || last.body == []
    decreases |cases|
  {
    hide LineOf, ConditionIn, PrintCase, CaseOk;
    CasesPrinted(cases, first);
    if |cases| == 1 {
      FirstCaseOk(w, cases);
      CasePrinted(w, cases[0], first);
    } else {
      LastPrinted(w, cases[1..], false);
    }
  }

  lemma NothingExecutes<X>(m: Meaning<X>, expr: ExpressionCode, s: X, fuel: nat)
    ensures ExecAll(m, expr, [], s, fuel) == Normal(s)
  {
  }

  lemma NothingLowers(expr: ExpressionCode, next: nat, targets: Targets)
    ensures LowerAll(expr, [], next, targets) == Some(Lowered([], next))
    ensures AllHaveBlocks([]) && AllScoped([]) && LevelCode.AllTidy(expr, [])
  {
  }

  // ----- the same run -----

  lemma {:induction false} StatementRuns(w: World, st: Statement, s: State, fuel: nat)
    requires WorldOk(w) && StatementOk(w, st) && Fits(w, s)
    ensures ExecNode(MeaningOf(w.ctx), Code(w), Print(st), Res(s), fuel) == Lift(RunStatement(w, st, s, fuel))
    decreases fuel, st, 1
  {
    hide MeaningOf, SourceCode, WorldOk, AssignmentIn, ConditionIn, Assigned, Holds, Asked, ExecExpression, ExecLoop, RunLoop, RunCases, ExecClauses,
         LineOf;
    match st
    case Assigns(e) => AssignmentDoes(w, e, s);
    case Leave(isBreak) => LeaveDoes(w, isBreak, s);
    case Brace(opens) => BraceDoes(w, opens, s);
    case Choice(cases) =>
      CasesRun(w, cases, true, s, fuel);
      LastPrinted(w, cases, true);
      var o := RunCases(w, cases, s, fuel);
      if o.Normal? {
        NothingExecutes(MeaningOf(w.ctx), Code(w), Res(o.s), fuel);
      }
    case While(condition, body) =>
      HeaderSplits(w, "while", condition, []);
      LoopRuns(w, condition, body, [], PrintAll(body), s, fuel);
    case LineWhile(_, _, _) => LineWhileRuns(w, st, s, fuel);
  }

  lemma {:induction false} LineWhileRuns(w: World, st: Statement, s: State, fuel: nat)
    requires WorldOk(w) && st.LineWhile? && StatementOk(w, st) && Fits(w, s)
    ensures ExecNode(MeaningOf(w.ctx), Code(w), Print(st), Res(s), fuel) == Lift(RunStatement(w, st, s, fuel))
    decreases fuel, st, 0
  {
    hide MeaningOf, SourceCode, WorldOk, ConditionIn, ExecLoop, ExecAll, RunLoop, RunAll, PrintAll, IsLine, LineTokens, AllOk, StatementTokens,
         SourceTrees.Header;
    LinePrinted(w, st.line);
    LineOfHeader(w, st.condition, LineTokens(st.line));
    LoopRuns(w, st.condition, st.line, LineTokens(st.line), PrintAll(st.after), s, fuel);
    var o := RunLoop(w, st.condition, st.line, s, fuel);
    if o.Normal? {
      AllRun(w, st.after, o.s, fuel);
    }
  }

  lemma {:induction false} AllRun(w: World, p: seq<Statement>, s: State, fuel: nat)
    requires WorldOk(w) && AllOk(w, p) && Fits(w, s)
    ensures ExecAll(MeaningOf(w.ctx), Code(w), PrintAll(p), Res(s), fuel) == Lift(RunAll(w, p, s, fuel))
    decreases fuel, p, 0
  {
    hide MeaningOf, SourceCode, WorldOk, StatementOk, ExecNode, Print, PrintAll;
    if p == [] {
      NothingPrinted();
    } else {
      AllPrinted(p);
      StatementRuns(w, p[0], s, fuel);
      var o := RunStatement(w, p[0], s, fuel);
      if o.Normal? {
        AllRun(w, p[1..], o.s, fuel);
      }
    }
  }

  lemma NothingPrinted()
    ensures PrintAll([]) == [] && PrintCases([], true) == [] && PrintCases([], false) == []
  {
  }

  lemma {:induction false} CasesRun(w: World, cases: seq<Case>, first: bool, s: State, fuel: nat)
    requires WorldOk(w) && CasesOk(w, cases) && Fits(w, s)
    ensures ExecClauses(MeaningOf(w.ctx), Code(w), PrintCases(cases, first), Res(s), fuel) == Lift(RunCases(w, cases, s, fuel))
    decreases fuel, cases, 0
  {
    hide MeaningOf, SourceCode, WorldOk, ConditionIn, Holds, Asked, ExecAll, RunAll, PrintAll, PrintCases, LineOf, Ask, CaseOk, ExecBranch,
         CaseLine, AllOk, IsLine;
    NothingPrinted();
    if cases != [] {
      CasesPrinted(cases, first);
      FirstCaseOk(w, cases);
      var c := cases[0];
      CasePrinted(w, c, first);
      match c {
        case When(condition, _, body) =>
          ConditionDoes(w, if first then "if" else "elif", condition, CaseLine(c), s);
          if Holds(w, condition, s) {
            BranchExecutes(w, c, first, Res(Asked(w, condition, s)), fuel);
            AllRun(w, body, Asked(w, condition, s), fuel);
          } else {
            CasesRun(w, cases[1..], false, Asked(w, condition, s), fuel);
          }
        case Otherwise(_, body) =>
          BranchExecutes(w, c, first, Res(s), fuel);
          AllRun(w, body, s, fuel);
          assert PrintCases(cases[1..], false) == [];
      }
    }
  }

  /** What a cycle repeats is its block, or the statement on its line. */
  predicate Repeats(w: World, p: seq<Statement>, line: seq<Tokens.Token>, nodes: seq<Node>) {
    AllOk(w, p) && if line == [] then nodes == PrintAll(p) else IsLine(p) && line == LineTokens(p)
  }

  lemma RepeatedExecutes(w: World, p: seq<Statement>, line: seq<Tokens.Token>, nodes: seq<Node>, s: Result, fuel: nat)
    requires Repeats(w, p, line, nodes)
    ensures ExecAll(MeaningOf(w.ctx), Code(w), PrintAll(p), s, fuel)
         == if line != [] then ExecExpression(MeaningOf(w.ctx), Code(w), line, s) else ExecAll(MeaningOf(w.ctx), Code(w), nodes, s, fuel)
  {
    hide MeaningOf, SourceCode, ExecAll, ExecExpression, PrintAll, LineTokens, AllOk, IsLine;
    if line != [] {
      LinePrinted(w, p);
      AloneExecutes(MeaningOf(w.ctx), Code(w), line, s, fuel);
    }
  }

  lemma LineOfHeader(w: World, condition: P.Tree, line: seq<Tokens.Token>)
    requires ConditionIn(w, condition)
    ensures StatementTokens(SourceTrees.Header("while", condition, line)) == line
  {
    hide ConditionIn, SplitHeader, SourceTrees.Header;
    HeaderSplits(w, "while", condition, line);
  }

  lemma {:induction false} LoopRuns(w: World, condition: P.Tree, body: seq<Statement>, line: seq<Tokens.Token>, nodes: seq<Node>, s: State,
                                    fuel: nat)
    requires WorldOk(w) && ConditionIn(w, condition) && AllOk(w, body) && Repeats(w, body, line, nodes) && Fits(w, s)
    ensures ExecLoop(MeaningOf(w.ctx), Code(w), SourceTrees.Header("while", condition, line), nodes, Res(s), fuel)
         == Lift(RunLoop(w, condition, body, s, fuel))
    decreases fuel, body, 1
  {
    hide MeaningOf, SourceCode, WorldOk, ConditionIn, Holds, Asked, ExecAll, RunAll, PrintAll, Ask, StatementTokens, AllOk, Res, SourceTrees.Header,
         Repeats, ExecExpression;
    if fuel > 0 {
      LineOfHeader(w, condition, line);
      ConditionDoes(w, "while", condition, line, s);
      if Holds(w, condition, s) {
        RepeatedExecutes(w, body, line, nodes, Res(Asked(w, condition, s)), fuel - 1);
        AllRun(w, body, Asked(w, condition, s), fuel - 1);
        var o := RunAll(w, body, Asked(w, condition, s), fuel - 1);
        if o.Normal? || o.Continued? {
          LoopRuns(w, condition, body, line, nodes, o.s, fuel - 1);
        }
      }
    }
  }

  // ----- written programs are accepted -----

  lemma {:induction false} CasesGroup(w: World, cases: seq<Case>, first: bool)
    requires CasesOk(w, cases)
    ensures forall i :: 0 <= i < |cases| ==> PrintCases(cases, first)[i] == PrintCase(cases[i], first && i == 0)
    ensures forall i :: 0 <= i < |cases| - 1 ==> cases[i].When?
    decreases |cases|
  {
    hide ConditionIn, PrintCase, AllOk;
    if cases != [] {
      CasesPrinted(cases, first);
      var rest := cases[1..];
      if cases[0].When? {
        CasesGroup(w, rest, false);
      }
      assert forall i :: 0 < i < |cases| ==> cases[i] == rest[i - 1] && PrintCases(cases, first)[i] == PrintCases(cases, first)[1..][i - 1];
    }
  }

  lemma GroupPrinted(w: World, cases: seq<Case>)
    requires cases != [] && cases[0].When? && CasesOk(w, cases)
    ensures GroupOk(PrintCases(cases, true))
  {
    hide CasesOk, PrintCases;
    CasesGroup(w, cases, true);
  }

  lemma {:induction false} StatementLowers(w: World, st: Statement, next: nat, targets: Targets)
    requires StatementOk(w, st)
    ensures LowerNode(Code(w), Print(st), next, targets).Some?
    decreases st, 1
  {
    hide SourceCode, AssignmentIn, ConditionIn, LowerIf, LowerWhile, LowerAll, ExpressionOps, StatementOk;
    match st
    case Assigns(_) =>
    case Leave(_) =>
    case Brace(_) =>
    case Choice(cases) => ChoiceLowers(w, st, next, targets);
    case While(_, _) => CycleLowers(w, st, next, targets);
    case LineWhile(_, _, _) => CycleLowers(w, st, next, targets);
  }

  lemma {:induction false} ChoiceLowers(w: World, st: Statement, next: nat, targets: Targets)
    requires StatementOk(w, st) && st.Choice?
    ensures LowerNode(Code(w), Print(st), next, targets).Some?
    decreases st, 0
  {
    hide SourceCode, LowerClauses, LowerAll, LineOf, GroupOk, PrintCases, CasesOk;
    var cases := st.cases;
    GroupPrinted(w, cases);
    LastPrinted(w, cases, true);
    var several := |cases| > 1;
    var start, end := if several then next + 1 else next, if several then Some(next) else None;
    CasesLower(w, cases, true, start, targets, end);
    var body := LowerClauses(Code(w), PrintCases(cases, true), start, targets, end).value;
    NothingLowers(Code(w), body.next, targets);
  }

  lemma {:induction false} CycleLowers(w: World, st: Statement, next: nat, targets: Targets)
    requires StatementOk(w, st) && (st.While? || st.LineWhile?)
    ensures LowerNode(Code(w), Print(st), next, targets).Some?
    decreases st, 0
  {
    hide SourceCode, ConditionIn, LowerAll, ExpressionOps, SplitHeader, HeaderOk, PrintAll, AllOk, IsLine, LineTokens, SourceTrees.Header,
         ConditionOps;
    if st.While? {
      HeaderSplits(w, "while", st.condition, []);
      AllLower(w, st.body, next + 2, Cycle(next + 1, next));
    } else {
      LinePrinted(w, st.line);
      HeaderSplits(w, "while", st.condition, LineTokens(st.line));
      AllLower(w, st.after, next + 2, targets);
    }
  }

  lemma {:induction false} AllLower(w: World, p: seq<Statement>, next: nat, targets: Targets)
    requires AllOk(w, p)
    ensures LowerAll(Code(w), PrintAll(p), next, targets).Some?
    decreases p, 0
  {
    hide SourceCode, StatementOk, LowerNode, Print, PrintAll;
    if p == [] {
      NothingPrinted();
    } else {
      AllPrinted(p);
      StatementLowers(w, p[0], next, targets);
      AllLower(w, p[1..], LowerNode(Code(w), Print(p[0]), next, targets).value.next, targets);
    }
  }

  lemma {:induction false} CasesLower(w: World, cases: seq<Case>, first: bool, next: nat, targets: Targets, end: Option<nat>)
    requires CasesOk(w, cases)
    ensures LowerClauses(Code(w), PrintCases(cases, first), next, targets, end).Some?
    decreases cases, 0
  {
    hide SourceCode, ConditionIn, LowerAll, LineOf, PrintAll, PrintCase, PrintCases, ClauseOk, ConditionOps, CaseOk, LowerBranch, IsLine;
    NothingPrinted();
    if cases != [] {
      CasesPrinted(cases, first);
      FirstCaseOk(w, cases);
      var c, clause := cases[0], PrintCase(cases[0], first);
      CasePrinted(w, c, first);
      var start := if clause.kind == Else then next else next + 1;
      AllLower(w, c.body, start, targets);
      BranchLowers(w, c, first, start, targets);
      CasesLower(w, cases[1..], false, LowerBranch(Code(w), clause, start, targets).value.next, targets, end);
    }
  }

  /** Cycles have their bodies, breaks are inside cycles, statements leave no operand and conditions one. */
  lemma {:induction false} StatementWritten(w: World, st: Statement)
    requires WorldOk(w) && StatementOk(w, st)
    ensures HasBlocks(Print(st)) && (Inside(st) ==> Scoped(Print(st))) && LevelCode.Tidy(Code(w), Print(st))
    decreases st, 1
  {
    hide SourceCode, AssignmentIn, ConditionIn, AllHaveBlocks, ClausesHaveBlocks, AllScoped, ClausesScoped, LevelCode.AllTidy, LevelCode.ClausesTidy,
         LineOf, LevelCode.Statement, LevelCode.WhileTidy, SplitHeader, WorldOk;
    var some := Divided;
    match st
    case Assigns(e) =>
      AssignmentDoes(w, e, some);
      AssignmentIsLong(w, e);
    case Leave(isBreak) => LeaveWritten(w, isBreak);
    case Brace(_) =>
    case Choice(cases) =>
      CasesWritten(w, cases, true);
      LastPrinted(w, cases, true);
      NothingLowers(Code(w), 0, NoCycle);
    case While(_, _) => CycleWritten(w, st);
    case LineWhile(_, _, _) => CycleWritten(w, st);
  }

  lemma {:induction false} CycleWritten(w: World, st: Statement)
    requires WorldOk(w) && StatementOk(w, st) && (st.While? || st.LineWhile?)
    ensures HasBlocks(Print(st)) && (Inside(st) ==> Scoped(Print(st))) && LevelCode.Tidy(Code(w), Print(st))
    decreases st, 0
  {
    hide SourceCode, ConditionIn, AllHaveBlocks, AllScoped, LevelCode.AllTidy, LevelCode.Statement, LevelCode.Condition, SplitHeader, HeaderOk,
         WorldOk, PrintAll, AllOk, IsLine, LineTokens, SourceTrees.Header;
    if st.While? {
      HeaderSplits(w, "while", st.condition, []);
      ConditionDoes(w, "while", st.condition, [], Divided);
      AllWritten(w, st.body);
    } else {
      LinePrinted(w, st.line);
      HeaderSplits(w, "while", st.condition, LineTokens(st.line));
      ConditionDoes(w, "while", st.condition, LineTokens(st.line), Divided);
      AllWritten(w, st.line);
      AloneWritten(Code(w), LineTokens(st.line));
      AllWritten(w, st.after);
    }
  }

  /** What is said of a block with one expression is said of the expression. */
  lemma AloneWritten(expr: ExpressionCode, tokens: seq<Tokens.Token>)
    ensures AllScoped([Expression(tokens)]) <==> !IsBreak(tokens) && !IsContinue(tokens)
    ensures LevelCode.AllTidy(expr, [Expression(tokens)]) <==> LevelCode.Statement(expr, tokens)
  {
    hide LevelCode.Statement;
    assert [Expression(tokens)][1..] == [];
  }

  lemma BranchWritten(w: World, c: Case, first: bool)
    requires CaseOk(w, c)
    ensures var clause, nodes := PrintCase(c, first), PrintAll(c.body);
            && (AllHaveBlocks(nodes) ==> BranchHasBlocks(clause)) && (AllScoped(nodes) ==> BranchScoped(clause))
            && (LevelCode.AllTidy(Code(w), nodes) ==> LevelCode.BranchTidy(Code(w), clause))
  {
    hide SourceCode, CaseOk, LineOf, PrintCase, PrintAll, LineTokens, AllHaveBlocks, AllScoped, LevelCode.AllTidy, LevelCode.Statement;
    CasePrinted(w, c, first);
    if c.ownLine {
      OwnLinePrinted(w, c);
      AloneWritten(Code(w), CaseLine(c));
    }
  }

  lemma LeaveWritten(w: World, isBreak: bool)
    ensures LevelCode.Statement(Code(w), [OwnLines.Keyword(if isBreak then "break" else "continue")])
  {
    LeaveDoes(w, isBreak, Divided);
  }

  lemma {:induction false} AllWritten(w: World, p: seq<Statement>)
    requires WorldOk(w) && AllOk(w, p)
    ensures var nodes := PrintAll(p); AllHaveBlocks(nodes) && (AllInside(p) ==> AllScoped(nodes)) && LevelCode.AllTidy(Code(w), nodes)
    decreases p, 0
  {
    hide SourceCode, StatementOk, Inside, HasBlocks, Scoped, LevelCode.Tidy, Print, PrintAll, WorldOk;
    if p == [] {
      NothingPrinted();
    } else {
      AllPrinted(p);
      StatementWritten(w, p[0]);
      AllWritten(w, p[1..]);
    }
  }

  lemma {:induction false} CasesWritten(w: World, cases: seq<Case>, first: bool)
    requires WorldOk(w) && CasesOk(w, cases)
    ensures var clauses := PrintCases(cases, first);
            && ClausesHaveBlocks(clauses) && (CasesInside(cases) ==> ClausesScoped(clauses)) && LevelCode.ClausesTidy(Code(w), clauses)
    decreases cases, 0
  {
    hide SourceCode, ConditionIn, AllHaveBlocks, AllScoped, LevelCode.AllTidy, LineOf, LevelCode.Condition, PrintAll, PrintCases, WorldOk, CaseOk,
         IsLine, BranchScoped, BranchHasBlocks, LevelCode.BranchTidy;
    NothingPrinted();
    if cases != [] {
      CasesPrinted(cases, first);
      FirstCaseOk(w, cases);
      var c := cases[0];
      CasePrinted(w, c, first);
      if c.When? {
        ConditionDoes(w, if first then "if" else "elif", c.condition, CaseLine(c), Divided);
      }
      AllWritten(w, c.body);
      BranchWritten(w, c, first);
      CasesWritten(w, cases[1..], false);
    }
  }
}
