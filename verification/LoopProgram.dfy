/** A program with a cycle that meets everything asked of programs: while (x) { x = x - y }. */
module LoopProgram {
  import opened Words
  import opened ByteCode
  import opened Pseudo
  import opened LoweringSpec
  import opened Syntax
  import opened CodegenSpec
  import opened FlatCodegen
  import opened ProgramStart
  import opened SourceTrees
  import opened TreePrograms
  import opened ProgramPressure
  import opened ProgramTable
  import opened WholeProgram
  import A = AssignmentPressure
  import C = CompiledCode
  import E = Expressions
  import L = Literals
  import LO = LinkOrder
  import O = ObjectFormat
  import OR = ObjectRoundTrip
  import P = PrintedTrees
  import PS = PostfixSpec
  import ROD = ReadOnlyData
  import RP = RegisterPressure
  import RT = RawTokens
  import SP = SourceProgram
  import S = SourceExpressions
  import SE = StackEvaluator
  import Sim = Simulation
  import T = ExpressionsTranslator
  import Tokens
  import U = Startup

  function Name(s: string): P.Tree {
    P.Leaf(PS.Simple(Tokens.Token(Tokens.Identifier, Tokens.Name(s))))
  }

  function Difference(): P.Tree {
    P.Infix(Tokens.Minus, Name("x"), Name("y"))
  }

  function Step(): P.Tree {
    P.Infix(Tokens.Set, Name("x"), Difference())
  }

  function Loop(): seq<Statement> {
    [While(Name("x"), [Assigns(Step())])]
  }

  function Known(): T.Names {
    map[Tokens.Name("x") := 0, Tokens.Name("y") := 1]
  }

  /** Two signed variables of eight bytes in module 1, which starts at address 0; sixteen general registers. */
  function LoopContext(): SE.Context {
    var x := Variable(Int, 8, true, 0, 0);
    SE.Context(Layout(map[1 := 0], [], [], []), U.LoadedSpace(0), 1, Env(16, map[0 := x, 1 := x.(offset := 8)], []))
  }

  function LoopWorld(decode: L.Decoder): World {
    World(Known(), [], decode, LoopContext())
  }

  function NoConstants(): O.MoState {
    O.MoState([0, 0, 128, 63], 0, [1], [], [])
  }

  lemma NamesApart()
    ensures Tokens.Name("x") != Tokens.Name("y")
  {
    assert "x"[0] != "y"[0];
  }

  lemma ContextFits()
    ensures SE.ContextOk(LoopContext()) && RP.IntegerEnv(LoopContext().env)
  {
  }

  lemma NamesSay(w: string, constants: seq<Tokens.Text>)
    requires w == "x" || w == "y"
    ensures S.Denoted(Known(), Name(w), constants) == S.Denotes(E.Var(if w == "x" then 0 else 1), constants)
    ensures P.TreeOk(Name(w), false) && L.Operates(Known(), Name(w))
  {
    NamesApart();
  }

  /** x = x - y, as the translator sees it. */
  function Assignment(): E.Assignment {
    E.Assignment(0, Nop, E.Plain(E.Bin(T.OpCodeOf(Tokens.Minus), E.Var(0), E.Var(1))))
  }

  lemma OperatorFacts()
    ensures S.Computes(Tokens.Minus) && T.OpCodeOf(Tokens.Minus) != Exponentiate && P.IsInfix(Tokens.Minus)
    ensures Tokens.Info(Tokens.Minus).kind != Tokens.AssignmentOperator
    ensures Tokens.Info(Tokens.Set).kind == Tokens.AssignmentOperator && T.OpCodeOf(Tokens.Set) == Nop && P.IsInfix(Tokens.Set)
  {
  }

  lemma DifferenceSays(constants: seq<Tokens.Text>)
    ensures S.Denoted(Known(), Difference(), constants) == S.Denotes(E.Bin(T.OpCodeOf(Tokens.Minus), E.Var(0), E.Var(1)), constants)
    ensures P.TreeOk(Difference(), false) && L.Operates(Known(), Difference())
    ensures S.Bare(Difference()) == Difference() && !S.IsAssignment(Difference())
  {
    hide Name, Known, Tokens.Info, T.OpCodeOf, S.Computes, P.IsInfix;
    OperatorFacts();
    NamesSay("x", constants);
    NamesSay("y", constants);
  }

  lemma StepSays(constants: seq<Tokens.Text>)
    ensures S.DenotedAssignment(Known(), Step(), constants) == S.Assigns(Assignment(), constants)
    ensures P.TreeOk(Step(), false) && L.Stores(Known(), LoopContext(), Step())
  {
    hide Name, Known, Difference, Tokens.Info, T.OpCodeOf, P.IsInfix, S.Denoted, L.Operates;
    OperatorFacts();
    DifferenceSays(constants);
    NamesSay("x", constants);
    VariableX();
  }

  lemma VariableX()
    ensures S.Bare(Name("x")) == Name("x") && S.IsVariable(Known(), Name("x")) && Known()[Name("x").operand.token.text] == 0
    ensures !S.IsAssignment(Name("x")) && !S.IsAssignment(Name("y"))
  {
    NamesApart();
  }

  lemma LoopShape(decode: L.Decoder)
    ensures AllShapeOk(LoopWorld(decode), Loop()) && AllInside(Loop()) && AllInterned(Known(), Loop(), []) == []
  {
    hide Name, Known, Step, LoopContext, L.Operates, L.Stores, P.TreeOk, S.Denoted, S.DenotedAssignment;
    var none: seq<Tokens.Text> := [];
    NamesSay("x", none);
    StepSays(none);
    var body := [Assigns(Step())];
    assert body[1..] == [] && Loop()[1..] == [];
    assert AllInterned(Known(), body, none) == none;
    assert AllShapeOk(LoopWorld(decode), body);
  }

  lemma NeedsTwo()
    ensures var env, a := LoopContext().env, Assignment();
            A.AssignmentTyped(env, a) && A.AssignmentNeed(a) == 2 && C.Nested(a) == 0
  {
  }

  lemma ConditionTakesOne(decode: L.Decoder)
    requires ConditionIn(LoopWorld(decode), Name("x"))
    ensures ConditionRegisters(LoopWorld(decode), Name("x"), 0) == Some(1)
  {
    hide Name, Known, L.Operates, P.TreeOk, S.Denoted;
    var none: seq<Tokens.Text> := [];
    NamesSay("x", none);
  }

  lemma StepTakesNone(decode: L.Decoder)
    requires AssignmentIn(LoopWorld(decode), Step())
    ensures AssignmentRegisters(LoopWorld(decode), Step(), 1) == Some(1)
  {
    hide Name, Known, Step, L.Stores, P.TreeOk, S.DenotedAssignment, A.AssignmentTyped, A.AssignmentNeed, C.Nested, Assignment;
    var none: seq<Tokens.Text> := [];
    StepSays(none);
    NeedsTwo();
  }

  lemma LoopRegisters(decode: L.Decoder)
    ensures AllOk(LoopWorld(decode), Loop()) && AllRegisters(LoopWorld(decode), Loop(), 0) == Some(1)
  {
    hide Name, Known, Step, LoopContext, ConditionIn, AssignmentIn, ConditionRegisters, AssignmentRegisters, AllShapeOk, AllInterned;
    var w, none: seq<Tokens.Text> := LoopWorld(decode), [];
    LoopShape(decode);
    AllTurn(w, Loop(), none);
    var body := [Assigns(Step())];
    assert body[1..] == [] && Loop()[1..] == [] && Loop()[0] == While(Name("x"), body);
    assert AllOk(w, body) && AssignmentIn(w, Step()) && ConditionIn(w, Name("x"));
    ConditionTakesOne(decode);
    StepTakesNone(decode);
    assert AllRegisters(w, body, 1) == Some(1);
  }

  // ----- installed and run -----

  function LoopCode(w: World): Option<Lowered> {
    LowerAll(Code(w), PrintAll(Loop()), 0, NoCycle)
  }

  function LoopFiles(w: World): map<ModuleId, LO.ModuleFile> {
    var r := LoopCode(w);
    map[1 := LO.ModuleFile(if r.Some? && StateAt(w.ctx.env, r.value.code, |r.value.code|).Some? then Commands(w.ctx, r.value.code) else [], 16)]
  }

  lemma ConditionCode(decode: L.Decoder)
    ensures Code(LoopWorld(decode))(RT.SourceOf(Name("x"))) == [PseudoOp(Use, 0, Nop)]
  {
    hide Name, Known, S.Denoted, P.TreeOk, L.Operates, S.Translation;
    var none: seq<Tokens.Text> := [];
    NamesSay("x", none);
    S.ExpressionTranslated(Known(), Name("x"), none);
  }

  lemma StepCode(decode: L.Decoder)
    ensures |Code(LoopWorld(decode))(RT.SourceOf(Step()))| == 5
  {
    hide Name, Known, Step, S.DenotedAssignment, P.TreeOk, L.Stores, S.Translation;
    var none: seq<Tokens.Text> := [];
    StepSays(none);
    S.AssignmentTranslated(Known(), Step(), none);
  }

  lemma LoopLength(decode: L.Decoder)
    ensures var r := LoopCode(LoopWorld(decode)); r.Some? && r.value.next == 2 && |r.value.code| <= 20
  {
    hide Name, Known, Step, LoopContext, S.Translation, Code, RT.SourceOf, SplitHeader, HeaderOk, ConditionIn, AllOk;
    var w := LoopWorld(decode);
    var body, none: seq<Statement> := [Assigns(Step())], [];
    LoopRegisters(decode);
    LoopParts(w);
    HeaderSplits(w, "while", Name("x"), []);
    ConditionCode(decode);
    StepCode(decode);
    AssignmentIsLong(w, Step());
    assert body[0] == Assigns(Step()) && body[1..] == none && Loop()[0] == While(Name("x"), body) && Loop()[1..] == none;
    AllPrinted(body);
    AllPrinted(Loop());
    NothingPrinted();
    var own := Cycle(1, 0);
    assert LowerAll(Code(w), PrintAll(none), 2, own) == Some(Lowered([], 2)) && LowerAll(Code(w), PrintAll(none), 2, NoCycle) == Some(Lowered([], 2));
    var line := LowerNode(Code(w), Print(body[0]), 2, own);
    assert line.Some? && line.value.next == 2 && |line.value.code| <= 5;
    assert LowerAll(Code(w), PrintAll(body), 2, own).Some?;
    var loop := LowerNode(Code(w), Print(Loop()[0]), 0, NoCycle);
    assert loop.Some? && loop.value.next == 2 && |loop.value.code| <= 20;
  }

  lemma LoopParts(w: World)
    requires AllOk(w, Loop())
    ensures ConditionIn(w, Name("x")) && AssignmentIn(w, Step())
  {
    hide ConditionIn, AssignmentIn, Name, Step;
    var body := [Assigns(Step())];
    assert Loop()[0] == While(Name("x"), body) && body[0] == Assigns(Step());
    assert StatementOk(w, Loop()[0]) && StatementOk(w, body[0]);
  }

  lemma OneBase(files: map<ModuleId, LO.ModuleFile>)
    ensures LO.Place(0, [1], files).bases == map[1 := 0]
  {
    assert [1][..0] == [];
    assert LO.Place(0, [], files) == LO.Placement(map[], 0);
  }

  lemma NoConstantsRead(aligned: bool)
    ensures OR.MoOk(NoConstants()) && OR.Readable(NoConstants().symbols)
    ensures var r := O.ReadMo(O.MoBytes(NoConstants()), aligned); r.Some? && r.value.constants == []
  {
    hide O.ReadMo, O.MoBytes;
    OR.MoRoundTrip(NoConstants(), aligned);
  }

  lemma NothingInstalled(decode: L.Decoder, aligned: bool, mem: Memory)
    requires |mem| == U.LoadedSpace(0).end
    ensures SP.Installed([], decode, LoopContext(), NoConstants(), aligned, Layout(map[], [], [], []), 0, LoopFiles(LoopWorld(decode)), mem)
  {
    hide LoopFiles, O.ReadMo, O.MoBytes, OR.MoOk, OR.Readable, LO.Place;
    OneBase(LoopFiles(LoopWorld(decode)));
    NoConstantsRead(aligned);
    var none: seq<ROD.ConstantData> := [];
    assert ROD.TotalSize(none) == 0 && ROD.Image(none) == [] && mem[..0] == [];
    assert NoConstants().constants == L.BytesOf(decode, []);
  }

  lemma LoopGenerated(decode: L.Decoder)
    ensures SP.ModuleOf(LoopContext(), Code(LoopWorld(decode)), PrintAll(Loop()), 0, LoopFiles(LoopWorld(decode)))
  {
    hide Loop, Known, StateAt, LowerAll, PrintAll, Commands;
    LoopLength(decode);
  }

  /** The loop is accepted, linked, loaded and started, from any memory: the machine does what it says. */
  lemma LoopRuns(decode: L.Decoder, aligned: bool, mem: Memory) returns (l: Sim.Link)
    requires |mem| == U.LoadedSpace(0).end
    ensures RunsAs(l, LoopWorld(decode), Loop(), mem)
  {
    hide Loop, Known, LoopContext, StateAt, AllShapeOk, AllInterned, AllOk, AllRegisters, SP.Installed, SE.ContextOk, RP.IntegerEnv,
         RunsAs, SP.ModuleOf;
    var w := LoopWorld(decode);
    ContextFits();
    LoopShape(decode);
    LoopRegisters(decode);
    LoopGenerated(decode);
    NothingInstalled(decode, aligned, mem);
    l := WholeProgramRuns(w, Loop(), NoConstants(), aligned, Layout(map[], [], [], []), 0, LoopFiles(w), 0, mem);
  }
}
