/** Which expressions are translated: where assignments may stand, and how many registers the rest needs. */
module Translatable {
  import opened Words
  import opened ByteCode
  import opened Pseudo
  import opened Tokens
  import opened PostfixSpec
  import opened PrintedTrees
  import opened SyntaxTrees
  import opened ConstantsTable
  import opened ExpressionsTranslator
  import opened SourceExpressions
  import opened RawTokens
  import opened StackHeight
  import E = Expressions
  import G = CodegenSpec
  import A = AssignmentPressure
  import RB = RegisterBalance
  import RP = RegisterPressure

  predicate Assigning(op: Symbol) {
    Info(op).kind == AssignmentOperator && op != SetTilde
  }

  /** Operators and assignments, nested in any way, over known names and literals. */
  predicate Mixed(names: Names, e: Tree)
    decreases e
  {
    match e
    case Leaf(g) => g.Simple? && ((g.token.kind == Identifier && g.token.text in names) || g.token.kind == Literal)
    case Infix(op, l, r) => (Computes(op) || Assigning(op)) && Mixed(names, l) && Mixed(names, r)
    case Prefix(op, a) => (op == MinusU || op == BitNotU) && Mixed(names, a)
    case Paren(a) => Mixed(names, a)
    case _ => false
  }

  predicate Assigns(e: Tree) {
    IsAssignment(Bare(e))
  }

  function One(b: bool): nat {
    if b then 1 else 0
  }

  /** The assignments that are operands: all but the whole tree and the right sides of assignments. */
  function Misplaced(e: Tree): nat
    decreases e
  {
    match e
    case Infix(op, l, r) =>
      Misplaced(l) + Misplaced(r) + One(Assigns(l)) + (if Info(op).kind == AssignmentOperator then 0 else One(Assigns(r)))
    case Prefix(op, a) => Misplaced(a) + One(Assigns(a))
    case Paren(a) => Misplaced(a)
    case _ => 0
  }

  /** Every assignment of the chain is to a variable. */
  predicate ToVariables(names: Names, e: Tree)
    decreases e
  {
    match e
    case Infix(op, l, r) => IsVariable(names, Bare(l)) && (Assigns(r) ==> ToVariables(names, r))
    case Paren(a) => ToVariables(names, a)
    case _ => false
  }

  // ----- the code of such a tree -----

  datatype Coded = Coded(code: seq<PseudoOp>, constants: seq<Text>)

  /** A last assignment leaves its value. */
  function Released(code: seq<PseudoOp>): seq<PseudoOp> {
    if code != [] && Last(code).code == Assign then code[|code| - 1 := Last(code).(code := AssignR)] else code
  }

  /** Operands before operations; of an assignment the right side's constants are numbered first. */
  function CodeOf(names: Names, e: Tree, constants: seq<Text>): Coded
    requires Mixed(names, e)
    decreases e
  {
    match e
    case Leaf(g) =>
      if g.token.kind == Identifier then Coded([PseudoOp(Use, names[g.token.text], Nop)], constants)
      else Coded([ConstantOp(constants, g.token.text)], Interned(constants, g.token.text))
    case Infix(op, l, r) =>
      if Computes(op) then
        var left := CodeOf(names, l, constants);
        var right := CodeOf(names, r, left.constants);
        Coded(left.code + right.code + [Op(OpCodeOf(op))], right.constants)
      else
        var right := CodeOf(names, r, constants);
        var left := CodeOf(names, l, right.constants);
        Coded(left.code + Released(right.code) + [PseudoOp(Assign, 0, OpCodeOf(op))], left.constants)
    case Prefix(op, a) =>
      var arg := CodeOf(names, a, constants);
      Coded(arg.code + [Op(OpCodeOf(op))], arg.constants)
    case Paren(a) => CodeOf(names, a, constants)
  }

  lemma AssigningBinary(op: Symbol)
    requires Assigning(op)
    ensures OpCodeOf(op) == Nop || IsBinary(OpCodeOf(op))
    ensures op != Scope && op != Field && op != PointerField && !Computes(op)
  {
  }

  lemma ComputingBinary(op: Symbol)
    requires Computes(op)
    ensures IsBinary(OpCodeOf(op)) && OpCodeOf(op) != Assign && OpCodeOf(op) != DeclareVariable && op != Scope
    ensures Info(op).kind == BinaryOperator
  {
  }

  /** The code ends with an assignment exactly when the tree is one. */
  lemma {:induction false} CodeEnds(names: Names, e: Tree, constants: seq<Text>)
    requires Mixed(names, e)
    ensures var code := CodeOf(names, e, constants).code;
            code != [] && Last(code).code != DeclareVariable && (Last(code).code == Assign <==> Assigns(e))
    decreases e
  {
    hide OpCodeOf, Info, Released;
    match e
    case Leaf(g) =>
    case Infix(op, l, r) =>
      if Computes(op) {
        ComputingBinary(op);
      } else {
        AssigningBinary(op);
        AssignmentKind(op);
      }
    case Prefix(op, a) => PrefixCode(op);
    case Paren(a) => CodeEnds(names, a, constants);
  }

  lemma AssignmentKind(op: Symbol)
    ensures Assigning(op) ==> Info(op).kind == AssignmentOperator
    ensures Computes(op) ==> Info(op).kind != AssignmentOperator
  {
  }

  lemma PrefixCode(op: Symbol)
    requires op == MinusU || op == BitNotU
    ensures OpCodeOf(op) == if op == MinusU then Negative else BitNot
    ensures Info(op).kind == UnaryOperator
  {
  }

  lemma ClosedCode(code: seq<PseudoOp>, left: seq<PseudoOp>, right: seq<PseudoOp>, compound: PseudoOpCode)
    requires left != [] && right != [] && Last(left).code != DeclareVariable
    ensures code + left != [] && Closed(Opened(code + left), right, compound)
         == code + (left + Released(right) + [PseudoOp(Assign, 0, compound)])
  {
    assert Last(code + left) == Last(left);
    var merged := code + left + right;
    assert Last(merged) == Last(right);
    if Last(right).code == Assign {
      var changed := Last(right).(code := AssignR);
      assert merged[|merged| - 1 := changed] == code + left + right[|right| - 1 := changed];
    }
    Reassociate(code, left, Released(right), [PseudoOp(Assign, 0, compound)]);
  }

  /** The tree's node is translated to the tree's code. */
  lemma {:induction false} MixedEmits(names: Names, e: Tree, code: seq<PseudoOp>, constants: seq<Text>)
    requires Mixed(names, e)
    ensures var c := CodeOf(names, e, constants);
            NodeOf(e).Built? && Analyzed(names, NodeOf(e).value, code, constants) == Emission(code + c.code, c.constants)
    decreases e
  {
    hide OpCodeOf, Closed, Opened, Released;
    match e
    case Leaf(g) =>
    case Infix(op, l, r) => InfixEmits(names, op, l, r, code, constants);
    case Prefix(op, a) =>
      MixedEmits(names, a, code, constants);
      PrefixEmits(names, op, NodeOf(a).value, code, constants, CodeOf(names, a, constants));
    case Paren(a) => MixedEmits(names, a, code, constants);
  }

  lemma PrefixEmits(names: Names, op: Symbol, a: Node, code: seq<PseudoOp>, constants: seq<Text>, c: Coded)
    requires op == MinusU || op == BitNotU
    requires Analyzed(names, a, code, constants) == Emission(code + c.code, c.constants)
    ensures Analyzed(names, Node(Operation, Token(Operator, Sym(op)), [a]), code, constants)
         == Emission(code + (c.code + [Op(OpCodeOf(op))]), c.constants)
  {
    var node := Node(Operation, Token(Operator, Sym(op)), [a]);
    assert Analyzed(names, node, code, constants) == AnalyzedOperation(names, node, op, code, constants);
    assert code + c.code + [Op(OpCodeOf(op))] == code + (c.code + [Op(OpCodeOf(op))]);
  }

  lemma {:induction false} InfixEmits(names: Names, op: Symbol, l: Tree, r: Tree, code: seq<PseudoOp>, constants: seq<Text>)
    requires Mixed(names, Infix(op, l, r))
    ensures var e := Infix(op, l, r);
            var c := CodeOf(names, e, constants);
            NodeOf(e).Built? && Analyzed(names, NodeOf(e).value, code, constants) == Emission(code + c.code, c.constants)
    decreases Infix(op, l, r), 0
  {
    hide OpCodeOf, Closed, Opened, Released, CodeOf, Analyzed;
    if Computes(op) {
      var left := CodeOf(names, l, constants);
      var right := CodeOf(names, r, left.constants);
      MixedEmits(names, l, code, constants);
      MixedEmits(names, r, code + left.code, left.constants);
      ComputingBinary(op);
      ComputedEmits(names, op, NodeOf(l).value, NodeOf(r).value, code, constants, left, right);
    } else {
      var right := CodeOf(names, r, constants);
      var left := CodeOf(names, l, right.constants);
      MixedEmits(names, r, [], constants);
      assert [] + right.code == right.code;
      MixedEmits(names, l, code, right.constants);
      CodeEnds(names, l, right.constants);
      CodeEnds(names, r, constants);
      AssigningBinary(op);
      AssignmentKind(op);
      AssignmentNode(names, op, NodeOf(l).value, NodeOf(r).value, code, constants);
      ClosedCode(code, left.code, right.code, OpCodeOf(op));
    }
    CodeOfInfix(names, op, l, r, constants);
  }

  lemma CodeOfInfix(names: Names, op: Symbol, l: Tree, r: Tree, constants: seq<Text>)
    requires Mixed(names, Infix(op, l, r))
    ensures CodeOf(names, Infix(op, l, r), constants)
         == if Computes(op) then
              var left := CodeOf(names, l, constants);
              var right := CodeOf(names, r, left.constants);
              Coded(left.code + right.code + [Op(OpCodeOf(op))], right.constants)
            else
              var right := CodeOf(names, r, constants);
              var left := CodeOf(names, l, right.constants);
              Coded(left.code + Released(right.code) + [PseudoOp(Assign, 0, OpCodeOf(op))], left.constants)
    ensures NodeOf(l).Built? && NodeOf(r).Built? ==>
              NodeOf(Infix(op, l, r)) == Built(Node(Operation, Token(Operator, Sym(op)), [NodeOf(l).value, NodeOf(r).value]))
  {
  }

  lemma ComputedEmits(names: Names, op: Symbol, l: Node, r: Node, code: seq<PseudoOp>, constants: seq<Text>, left: Coded, right: Coded)
    requires Computes(op)
    requires Analyzed(names, l, code, constants) == Emission(code + left.code, left.constants)
    requires Analyzed(names, r, code + left.code, left.constants) == Emission(code + left.code + right.code, right.constants)
    ensures Analyzed(names, Node(Operation, Token(Operator, Sym(op)), [l, r]), code, constants)
         == Emission(code + (left.code + right.code + [Op(OpCodeOf(op))]), right.constants)
  {
    var node := Node(Operation, Token(Operator, Sym(op)), [l, r]);
    assert Analyzed(names, node, code, constants) == AnalyzedOperation(names, node, op, code, constants);
    Reassociate(code, left.code, right.code, [Op(OpCodeOf(op))]);
  }

  // ----- every misplaced assignment leaves one value too few -----

  lemma ReleasedHeight(code: seq<PseudoOp>)
    ensures Height(Released(code)) == Height(code) + One(code != [] && Last(code).code == Assign)
  {
    hide Height;
    if code != [] && Last(code).code == Assign {
      var front, last := code[..|code| - 1], Last(code);
      assert code == front + [last] && Released(code) == front + [last.(code := AssignR)];
      HeightLast(front, last);
      HeightLast(front, last.(code := AssignR));
    }
  }

  lemma {:induction false} MixedHeight(names: Names, e: Tree, constants: seq<Text>)
    requires Mixed(names, e)
    ensures Height(CodeOf(names, e, constants).code) == 1 - One(Assigns(e)) - Misplaced(e)
    decreases e
  {
    hide Height, Delta, OpCodeOf, Info, IsBinary, Released;
    match e
    case Leaf(g) => LeafHeight(CodeOf(names, e, constants).code[0]);
    case Infix(op, l, r) =>
      var front := FrontOf(names, op, l, r, constants);
      MixedHeightFront(names, op, l, r, constants);
      if Computes(op) {
        ComputingBinary(op);
        HeightLast(front, Op(OpCodeOf(op)));
        OperatorDelta(OpCodeOf(op));
      } else {
        AssigningBinary(op);
        HeightLast(front, PseudoOp(Assign, 0, OpCodeOf(op)));
        AssignDelta(OpCodeOf(op));
      }
      AssignmentKind(op);
    case Prefix(op, a) =>
      MixedHeight(names, a, constants);
      PrefixCode(op);
      HeightLast(CodeOf(names, a, constants).code, Op(OpCodeOf(op)));
      OperatorDelta(OpCodeOf(op));
    case Paren(a) => MixedHeight(names, a, constants);
  }

  lemma AssignDelta(compound: PseudoOpCode)
    requires compound == Nop || IsBinary(compound)
    ensures Delta(PseudoOp(Assign, 0, compound)) == -2
  {
  }

  /** The code of both operands. */
  function FrontOf(names: Names, op: Symbol, l: Tree, r: Tree, constants: seq<Text>): seq<PseudoOp>
    requires Mixed(names, Infix(op, l, r))
  {
    if Computes(op) then CodeOf(names, l, constants).code + CodeOf(names, r, CodeOf(names, l, constants).constants).code
    else CodeOf(names, l, CodeOf(names, r, constants).constants).code + Released(CodeOf(names, r, constants).code)
  }

  lemma {:induction false} MixedHeightFront(names: Names, op: Symbol, l: Tree, r: Tree, constants: seq<Text>)
    requires Mixed(names, Infix(op, l, r))
    ensures Height(FrontOf(names, op, l, r, constants)) == 2 - Misplaced(Infix(op, l, r))
    decreases Infix(op, l, r), 0
  {
    hide Height, Delta, OpCodeOf, Info, IsBinary, Released, CodeOf;
    AssignmentKind(op);
    if Computes(op) {
      var left := CodeOf(names, l, constants);
      MixedHeight(names, l, constants);
      MixedHeight(names, r, left.constants);
      HeightAppend(left.code, CodeOf(names, r, left.constants).code);
    } else {
      var right := CodeOf(names, r, constants);
      MixedHeight(names, r, constants);
      MixedHeight(names, l, right.constants);
      CodeEnds(names, r, constants);
      ReleasedHeight(right.code);
      HeightAppend(CodeOf(names, l, right.constants).code, Released(right.code));
    }
  }

  /** Translated from an empty operand stack, an operation whose operands miss a value is refused. */
  lemma FrontRefused(env: G.Env, g: G.GState, front: seq<PseudoOp>, op: PseudoOp)
    requires env.general < TWO64 && g.stack == [] && Height(front) < Takes(op)
    ensures G.EmitAll(env, g, front + [op]).None?
  {
    hide G.EmitAll, G.EmitOp, Height, Takes;
    G.EmitAllAppend(env, g, front, [op]);
    if G.EmitAll(env, g, front).Some? {
      var g1 := G.EmitAll(env, g, front).value;
      TranslationHeight(env, g, front);
      G.EmitLast(env, g1, op);
      if G.EmitOp(env, g1, op).Some? {
        EmitHeight(env, g1, op);
      }
    }
  }

  /** A tree with an assignment as an operand is not translated, however many registers there are. */
  lemma {:induction false} MisplacedIsRefused(names: Names, e: Tree, constants: seq<Text>, env: G.Env, g: G.GState)
    requires Mixed(names, e) && env.general < TWO64 && g.stack == [] && Misplaced(e) > 0
    ensures G.EmitAll(env, g, CodeOf(names, e, constants).code).None?
    decreases e
  {
    hide G.EmitAll, Height, OpCodeOf, Info, IsBinary, Released, Takes;
    match e
    case Infix(op, l, r) =>
      MixedHeightFront(names, op, l, r, constants);
      TakesTwo(op);
      if !Computes(op) {
        AssigningBinary(op);
      }
      var last := if Computes(op) then Op(OpCodeOf(op)) else PseudoOp(Assign, 0, OpCodeOf(op));
      CodeOfInfix(names, op, l, r, constants);
      FrontRefused(env, g, FrontOf(names, op, l, r, constants), last);
    case Prefix(op, a) =>
      PrefixCode(op);
      MixedHeight(names, a, constants);
      TakesOne(OpCodeOf(op));
      FrontRefused(env, g, CodeOf(names, a, constants).code, Op(OpCodeOf(op)));
    case Paren(a) => MisplacedIsRefused(names, a, constants, env, g);
  }

  lemma TakesTwo(op: Symbol)
    requires Computes(op) || Assigning(op)
    ensures Takes(if Computes(op) then Op(OpCodeOf(op)) else PseudoOp(Assign, 0, OpCodeOf(op))) == 2
  {
  }

  lemma TakesOne(op: PseudoOpCode)
    requires op == Negative || op == BitNot
    ensures Takes(Op(op)) == 1
  {
  }

  // ----- what is not misplaced says something -----

  /** An operator tree says something exactly when none of its operands is an assignment. */
  lemma {:induction false} OperatorSays(names: Names, e: Tree, constants: seq<Text>)
    requires Mixed(names, e)
    ensures Denoted(names, e, constants).Denotes? <==> !Assigns(e) && Misplaced(e) == 0
    decreases e
  {
    hide OpCodeOf, Info;
    match e
    case Leaf(g) =>
    case Infix(op, l, r) =>
      AssignmentKind(op);
      OperatorSays(names, l, constants);
      if Denoted(names, l, constants).Denotes? {
        OperatorSays(names, r, Denoted(names, l, constants).constants);
      }
    case Prefix(op, a) => OperatorSays(names, a, constants);
    case Paren(a) => OperatorSays(names, a, constants);
  }

  /** An assignment says something exactly when no operand is an assignment and all targets are variables. */
  lemma {:induction false} AssignmentSays(names: Names, e: Tree, constants: seq<Text>)
    requires Mixed(names, e) && Assigns(e)
    ensures DenotedAssignment(names, e, constants).Assigns? <==> Misplaced(e) == 0 && ToVariables(names, e)
    ensures DenotedAssignment(names, e, constants).Assigns? ==> ShapeOk(DenotedAssignment(names, e, constants).a)
    decreases e
  {
    hide OpCodeOf, Info, IsBinary;
    match e
    case Infix(op, l, r) =>
      AssignmentKind(op);
      AssigningBinary(op);
      if IsVariable(names, Bare(l)) {
        VariableIsPlain(names, l);
      }
      if Assigns(r) {
        AssignmentSays(names, r, constants);
      } else {
        OperatorSays(names, r, constants);
        if Denoted(names, r, constants).Denotes? {
          NodeEmits(names, r, [], constants);
        }
      }
    case Paren(a) => AssignmentSays(names, a, constants);
  }

  lemma {:induction false} VariableIsPlain(names: Names, e: Tree)
    requires IsVariable(names, Bare(e))
    ensures Misplaced(e) == 0 && !Assigns(e)
  {
    if e.Paren? {
      VariableIsPlain(names, e.inner);
    }
  }

  lemma {:induction false} MixedOfTokens(names: Names, e: Tree)
    requires Mixed(names, e)
    ensures OfTokens(e)
  {
    match e
    case Leaf(g) =>
    case Infix(op, l, r) =>
      MixedOfTokens(names, l);
      MixedOfTokens(names, r);
      if Computes(op) {
        ComputingBinary(op);
      } else {
        AssigningBinary(op);
      }
    case Prefix(op, a) => MixedOfTokens(names, a);
    case Paren(a) => MixedOfTokens(names, a);
  }

  /** The tokens of such a tree are translated to its code. */
  lemma MixedTranslated(names: Names, e: Tree, constants: seq<Text>)
    requires TreeOk(e, false) && Mixed(names, e)
    ensures Translation(names, SourceOf(e), constants) == Emission(CodeOf(names, e, constants).code, CodeOf(names, e, constants).constants)
  {
    hide Analyzed, NodeOf, CodeOf, Translation;
    MixedOfTokens(names, e);
    MixedEmits(names, e, [], constants);
    FrontEnd(names, e, constants);
    assert [] + CodeOf(names, e, constants).code == CodeOf(names, e, constants).code;
  }

  // ----- when translation succeeds -----

  /**
   * Translated from an empty operand stack, the tokens of an expression are accepted exactly when no operand of an operator is an
   * assignment, what the tree says is well typed, and as many registers are free as it needs.
   */
  lemma OperatorTranslates(names: Names, e: Tree, constants: seq<Text>, env: G.Env, g: G.GState)
    requires TreeOk(e, false) && Mixed(names, e) && !Assigns(e)
    requires RP.IntegerEnv(env) && RB.Agrees(env, g) && g.stack == []
    ensures Translation(names, SourceOf(e), constants).Emission?
    ensures Denoted(names, e, constants).Denotes? <==> Misplaced(e) == 0
    ensures G.EmitAll(env, g, Translation(names, SourceOf(e), constants).code).Some?
            <==> && Misplaced(e) == 0 && RP.WellTyped(env, Denoted(names, e, constants).expr)
                 && |g.used| + RP.Need(Denoted(names, e, constants).expr) <= env.general
  {
    hide Translation, CodeOf, G.EmitAll, RP.WellTyped, RP.Need, Denoted, E.Compile, RB.Agrees;
    MixedTranslated(names, e, constants);
    OperatorSays(names, e, constants);
    if Misplaced(e) > 0 {
      MisplacedIsRefused(names, e, constants, env, g);
    } else {
      ExpressionTranslated(names, e, constants);
      RP.PressureIsExact(env, g, Denoted(names, e, constants).expr);
    }
  }

  /** What an operator tree says, compiled, is its code. */
  lemma OperatorCode(names: Names, e: Tree, constants: seq<Text>)
    requires Mixed(names, e) && !Assigns(e) && Misplaced(e) == 0
    ensures var d := Denoted(names, e, constants);
            d.Denotes? && E.OperatorsOk(d.expr) && CodeOf(names, e, constants).code == E.Compile(d.expr)
  {
    hide Analyzed, NodeOf, CodeOf, Denoted, E.Compile, Mixed, Misplaced;
    OperatorSays(names, e, constants);
    NodeEmits(names, e, [], constants);
    MixedEmits(names, e, [], constants);
    var x, c := E.Compile(Denoted(names, e, constants).expr), CodeOf(names, e, constants).code;
    assert [] + x == x && [] + c == c;
  }

  /** What an assignment says, compiled, is its code. */
  lemma AssignmentCode(names: Names, e: Tree, constants: seq<Text>)
    requires Mixed(names, e) && Assigns(e) && Misplaced(e) == 0 && ToVariables(names, e)
    ensures var d := DenotedAssignment(names, e, constants);
            && d.Assigns? && ShapeOk(d.a) && CodeOf(names, e, constants).code == E.CompileAssignment(d.a, Assign)
            && Released(CodeOf(names, e, constants).code) == E.CompileAssignment(d.a, AssignR)
  {
    hide Analyzed, NodeOf, CodeOf, DenotedAssignment, E.CompileAssignment, Mixed, Misplaced, ToVariables, ShapeOk;
    AssignmentSays(names, e, constants);
    AssignmentEmits(names, e, [], constants);
    MixedEmits(names, e, [], constants);
    var d := DenotedAssignment(names, e, constants);
    var x, c := E.CompileAssignment(d.a, Assign), CodeOf(names, e, constants).code;
    assert [] + x == x && [] + c == c;
    InnerLeavesValue(d.a);
  }

  /** The translated left side of an assignment that is no variable is no place to store to. */
  lemma NoPlace(env: G.Env, g: G.GState, e: E.Expr)
    requires RP.IntegerEnv(env) && RB.Agrees(env, g) && E.OperatorsOk(e) && !e.Var? && G.EmitAll(env, g, E.Compile(e)).Some?
    ensures var g1 := G.EmitAll(env, g, E.Compile(e)).value;
            && RP.OneAbove(env, g, g1, e)
            && var f := g1.stack[|g.stack|]; f.holder != G.StaticAddress && f.holder != G.SymbolRef
  {
    hide RB.Agrees, RP.TypeOf, E.Compile;
    RP.PressureIsExact(env, g, e);
    if e.Const? {
      ConstantLeaf(env, g, e.k);
    }
  }

  lemma ConstantLeaf(env: G.Env, g: G.GState, k: Word)
    requires env.general < TWO64 && G.EmitAll(env, g, E.Compile(E.Const(k))).Some?
    ensures var g1 := G.EmitAll(env, g, E.Compile(E.Const(k))).value;
            |g1.stack| == |g.stack| + 1 && g1.stack[|g.stack|].holder == G.ConstantRef
  {
    G.EmitLast(env, g, PseudoOp(UseConstant, k, Nop));
  }

  /** Nothing is stored to what is no place, whatever stands on top of it. */
  lemma StoreRefused(env: G.Env, g: G.GState, op: PseudoOp)
    requires env.general < TWO64 && (op.code == Assign || op.code == AssignR) && |g.stack| >= 2
    requires var f := g.stack[|g.stack| - 2]; f.holder != G.StaticAddress && f.holder != G.SymbolRef
    ensures G.EmitOp(env, g, op).None?
  {
    hide G.Operator, G.Combine, G.LoadCommand;
  }

  /** The code of an assignment, closed with the given operation. */
  function ClosedWith(code: seq<PseudoOp>, last: PseudoOpCode): seq<PseudoOp> {
    if last == AssignR then Released(code) else code
  }

  lemma {:induction false} BadTargetIsRefused(names: Names, e: Tree, constants: seq<Text>, env: G.Env, g: G.GState, last: PseudoOpCode)
    requires Mixed(names, e) && Assigns(e) && Misplaced(e) == 0 && !ToVariables(names, e)
    requires RP.IntegerEnv(env) && RB.Agrees(env, g) && (last == Assign || last == AssignR)
    ensures G.EmitAll(env, g, ClosedWith(CodeOf(names, e, constants).code, last)).None?
    decreases e, 2
  {
    hide G.EmitAll, OpCodeOf, Info, IsBinary, RB.Agrees, Released, CodeOf;
    match e
    case Infix(op, l, r) =>
      AssignmentKind(op);
      AssigningBinary(op);
      var right := CodeOf(names, r, constants);
      var left := CodeOf(names, l, right.constants);
      CodeOfInfix(names, op, l, r, constants);
      var closing := PseudoOp(last, 0, OpCodeOf(op));
      CodeEnds(names, r, constants);
      ClosedInfix(left.code + Released(right.code), OpCodeOf(op), last);
      G.EmitAllAppend(env, g, left.code + Released(right.code), [closing]);
      G.EmitAllAppend(env, g, left.code, Released(right.code));
      if G.EmitAll(env, g, left.code).Some? {
        OperandsRefused(names, op, l, r, constants, env, g, last);
      }
    case Paren(a) =>
      ParenCode(names, a, constants);
      BadTargetIsRefused(names, a, constants, env, g, last);
  }

  lemma ParenCode(names: Names, a: Tree, constants: seq<Text>)
    requires Mixed(names, Paren(a))
    ensures CodeOf(names, Paren(a), constants) == CodeOf(names, a, constants)
  {
  }

  lemma ClosedInfix(front: seq<PseudoOp>, compound: PseudoOpCode, last: PseudoOpCode)
    requires last == Assign || last == AssignR
    ensures ClosedWith(front + [PseudoOp(Assign, 0, compound)], last) == front + [PseudoOp(last, 0, compound)]
  {
  }

  lemma {:induction false} OperandsRefused(names: Names, op: Symbol, l: Tree, r: Tree, constants: seq<Text>, env: G.Env, g: G.GState,
                                           last: PseudoOpCode)
    requires var e := Infix(op, l, r); Mixed(names, e) && Assigning(op) && Misplaced(e) == 0 && !ToVariables(names, e)
    requires RP.IntegerEnv(env) && RB.Agrees(env, g) && (last == Assign || last == AssignR)
    requires G.EmitAll(env, g, CodeOf(names, l, CodeOf(names, r, constants).constants).code).Some?
    ensures var right := CodeOf(names, r, constants);
            var g1 := G.EmitAll(env, g, CodeOf(names, l, right.constants).code).value;
            var r2 := G.EmitAll(env, g1, Released(right.code));
            r2.Some? ==> G.EmitAll(env, r2.value, [PseudoOp(last, 0, OpCodeOf(op))]).None?
    decreases Infix(op, l, r), 0
  {
    hide G.EmitAll, OpCodeOf, Info, IsBinary, RB.Agrees, Released, CodeOf, RP.FrameOf, Denoted, E.Compile, E.OperatorsOk, G.EmitOp;
    var right := CodeOf(names, r, constants);
    var left := CodeOf(names, l, right.constants);
    AssignmentKind(op);
    AssigningBinary(op);
    OperatorCode(names, l, right.constants);
    var x := Denoted(names, l, right.constants).expr;
    RP.PressureIsExact(env, g, x);
    var g1 := G.EmitAll(env, g, left.code).value;
    RP.OneAboveAgrees(env, g, g1, x);
    var r2 := G.EmitAll(env, g1, Released(right.code));
    if IsVariable(names, Bare(l)) {
      BadTargetIsRefused(names, r, constants, env, g1, AssignR);
    } else if r2.Some? {
      VariableTarget(names, l, right.constants);
      ValueTargetRefused(names, x, r, constants, env, g, PseudoOp(last, 0, OpCodeOf(op)));
    }
  }

  /** Nothing can be stored in the value of an operator. */
  lemma {:induction false} ValueTargetRefused(names: Names, x: E.Expr, r: Tree, constants: seq<Text>, env: G.Env, g: G.GState,
                                              op: PseudoOp)
    requires Mixed(names, r) && Misplaced(r) == 0 && (op.code == Assign || op.code == AssignR)
    requires RP.IntegerEnv(env) && RB.Agrees(env, g) && E.OperatorsOk(x) && !x.Var? && G.EmitAll(env, g, E.Compile(x)).Some?
    ensures var g1 := G.EmitAll(env, g, E.Compile(x)).value;
            var r2 := G.EmitAll(env, g1, Released(CodeOf(names, r, constants).code));
            r2.Some? ==> G.EmitAll(env, r2.value, [op]).None?
    decreases r, 4
  {
    hide G.EmitAll, RB.Agrees, Released, CodeOf, E.Compile, E.OperatorsOk, G.EmitOp;
    NoPlace(env, g, x);
    var g1 := G.EmitAll(env, g, E.Compile(x)).value;
    RP.OneAboveAgrees(env, g, g1, x);
    RightAbove(names, r, constants, env, g1);
    var r2 := G.EmitAll(env, g1, Released(CodeOf(names, r, constants).code));
    if r2.Some? {
      SameTop(r2.value.stack, g1.stack);
      NoPlaceBelow(env, g, g1, r2.value, op);
    }
  }

  lemma SameTop<T>(s: seq<T>, t: seq<T>)
    requires 0 < |t| <= |s| && s[..|t|] == t
    ensures s[|t| - 1] == t[|t| - 1]
  {
  }

  lemma NoPlaceBelow(env: G.Env, g: G.GState, g1: G.GState, g2: G.GState, op: PseudoOp)
    requires env.general < TWO64 && (op.code == Assign || op.code == AssignR)
    requires |g1.stack| == |g.stack| + 1 && |g2.stack| == |g1.stack| + 1 && g2.stack[|g1.stack| - 1] == g1.stack[|g.stack|]
    requires var f := g1.stack[|g.stack|]; f.holder != G.StaticAddress && f.holder != G.SymbolRef
    ensures G.EmitAll(env, g2, [op]).None?
  {
    hide G.EmitAll, G.EmitOp;
    StoreRefused(env, g2, op);
    G.EmitLast(env, g2, op);
  }

  /** A left side that is an operand says a variable exactly when it is one. */
  lemma {:induction false} VariableTarget(names: Names, e: Tree, constants: seq<Text>)
    requires Denoted(names, e, constants).Denotes?
    ensures Denoted(names, e, constants).expr.Var? <==> IsVariable(names, Bare(e))
  {
    match e
    case Paren(a) => VariableTarget(names, a, constants);
    case Leaf(_) =>
    case Infix(_, _, _) =>
    case Prefix(_, _) =>
  }

  /** The right side, with the value of a nested assignment released, adds one operand, if it is translated. */
  lemma {:induction false} RightAbove(names: Names, r: Tree, constants: seq<Text>, env: G.Env, g1: G.GState)
    requires Mixed(names, r) && Misplaced(r) == 0 && RP.IntegerEnv(env) && RB.Agrees(env, g1)
    ensures var r2 := G.EmitAll(env, g1, Released(CodeOf(names, r, constants).code));
            r2.Some? ==> |r2.value.stack| == |g1.stack| + 1 && r2.value.stack[..|g1.stack|] == g1.stack
    decreases r, 3
  {
    hide G.EmitAll, RB.Agrees, CodeOf, RP.FrameOf, Denoted, E.Compile, E.OperatorsOk, DenotedAssignment, E.CompileAssignment, ToVariables,
         ShapeOk, A.AssignmentTyped, A.AssignmentNeed, Mixed, Misplaced;
    CodeEnds(names, r, constants);
    if !Assigns(r) {
      OperatorCode(names, r, constants);
      RP.PressureIsExact(env, g1, Denoted(names, r, constants).expr);
    } else if ToVariables(names, r) {
      AssignmentCode(names, r, constants);
      A.AssignmentPressureIsExact(env, g1, DenotedAssignment(names, r, constants).a, AssignR);
    } else {
      BadTargetIsRefused(names, r, constants, env, g1, AssignR);
    }
  }

  /**
   * Translated from an empty operand stack, the tokens of an assignment are accepted exactly when no operand is an assignment, all targets
   * are variables, what the tree says is well typed, and as many registers are free as it needs.
   */
  lemma AssignmentTranslates(names: Names, e: Tree, constants: seq<Text>, env: G.Env, g: G.GState)
    requires TreeOk(e, false) && Mixed(names, e) && Assigns(e)
    requires RP.IntegerEnv(env) && RB.Agrees(env, g) && g.stack == []
    ensures Translation(names, SourceOf(e), constants).Emission?
    ensures DenotedAssignment(names, e, constants).Assigns? <==> Misplaced(e) == 0 && ToVariables(names, e)
    ensures G.EmitAll(env, g, Translation(names, SourceOf(e), constants).code).Some?
            <==> && Misplaced(e) == 0 && ToVariables(names, e)
                 && A.AssignmentTyped(env, DenotedAssignment(names, e, constants).a)
                 && |g.used| + A.AssignmentNeed(DenotedAssignment(names, e, constants).a) <= env.general
  {
    hide Translation, CodeOf, G.EmitAll, A.AssignmentTyped, A.AssignmentNeed, DenotedAssignment, E.CompileAssignment, RB.Agrees, ToVariables;
    MixedTranslated(names, e, constants);
    AssignmentSays(names, e, constants);
    if Misplaced(e) > 0 {
      MisplacedIsRefused(names, e, constants, env, g);
    } else if !ToVariables(names, e) {
      BadTargetIsRefused(names, e, constants, env, g, Assign);
    } else {
      AssignmentTranslated(names, e, constants);
      A.AssignmentPressureIsExact(env, g, DenotedAssignment(names, e, constants).a, Assign);
    }
  }

  lemma {:induction false} SinglesWritten(groups: seq<Group>, tokens: seq<Token>)
    requires |groups| == |tokens| && AllWritable(groups)
    requires forall k :: 0 <= k < |groups| ==> groups[k] == Simple(tokens[k])
    ensures Written(groups) == tokens
    decreases |groups|
  {
    if groups != [] {
      SinglesWritten(groups[1..], tokens[1..]);
    }
  }

  function SumOfAssignment(x: Token, one: Token, y: Token): Tree {
    Infix(Symbol.Plus, Infix(Set, Leaf(Simple(x)), Leaf(Simple(one))), Leaf(Simple(y)))
  }

  lemma LeafMixed(names: Names, t: Token)
    requires (t.kind == Identifier && t.text in names) || t.kind == Literal
    ensures var e := Leaf(Simple(t)); Mixed(names, e) && TreeOk(e, false) && Misplaced(e) == 0 && !Assigns(e)
  {
  }

  lemma SumMixed(names: Names, x: Token, one: Token, y: Token)
    requires x.kind == y.kind == Identifier && x.text in names && y.text in names && one.kind == Literal
    ensures Mixed(names, SumOfAssignment(x, one, y)) && TreeOk(SumOfAssignment(x, one, y), false)
    ensures Misplaced(SumOfAssignment(x, one, y)) == 1
  {
    LeafMixed(names, x);
    LeafMixed(names, one);
    LeafMixed(names, y);
    var inner := Infix(Set, Leaf(Simple(x)), Leaf(Simple(one)));
    assert Mixed(names, inner) && TreeOk(inner, false) && Misplaced(inner) == 0 && Assigns(inner);
  }

  lemma SumPrinted(x: Token, one: Token, y: Token)
    requires x.kind == y.kind == Identifier && one.kind == Literal
    ensures Print(SumOfAssignment(x, one, y))
         == [Mark(LParen), Simple(x), OpToken(Set), Simple(one), Mark(RParen), OpToken(Symbol.Plus), Simple(y)]
    ensures AllWritable(Print(SumOfAssignment(x, one, y)))
    ensures SourceOf(SumOfAssignment(x, one, y)) == Written(Print(SumOfAssignment(x, one, y)))
  {
    var inner := Infix(Set, Leaf(Simple(x)), Leaf(Simple(one)));
    assert Print(inner) == [Simple(x), OpToken(Set), Simple(one)];
  }

  /** (x = 1) + y is accepted by the parser and refused by the code generator, whatever x and y are. */
  lemma AssignmentAsOperandIsRefused(names: Names, x: string, one: string, y: string, constants: seq<Text>, env: G.Env, g: G.GState)
    requires Name(x) in names && Name(y) in names && env.general < TWO64 && g.stack == []
    ensures var vx, v1, vy := Token(Identifier, Name(x)), Token(Literal, Name(one)), Token(Identifier, Name(y));
            var tokens := [Token(Delimiter, LParen), vx, Token(Operator, Sym(Set)), v1, Token(Delimiter, RParen),
                           Token(Operator, Sym(Symbol.Plus)), vy];
            var t := Translation(names, tokens, constants);
            t.Emission? && G.EmitAll(env, g, t.code).None?
  {
    hide Translation, CodeOf, G.EmitAll, SourceOf;
    var vx, v1, vy := Token(Identifier, Name(x)), Token(Literal, Name(one)), Token(Identifier, Name(y));
    var e := SumOfAssignment(vx, v1, vy);
    var tokens := [Token(Delimiter, LParen), vx, Token(Operator, Sym(Set)), v1, Token(Delimiter, RParen),
                   Token(Operator, Sym(Symbol.Plus)), vy];
    SumPrinted(vx, v1, vy);
    SinglesWritten(Print(e), tokens);
    SumMixed(names, vx, v1, vy);
    MixedTranslated(names, e, constants);
    MisplacedIsRefused(names, e, constants, env, g);
  }
}
