/** From the tokens of an expression to the pseudo code of its tree. */
module SourceExpressions {
  import opened Words
  import opened Pseudo
  import opened Tokens
  import opened PostfixSpec
  import opened PrintedTrees
  import opened SyntaxTrees
  import opened ConstantsTable
  import opened ExpressionsTranslator
  import opened Expressions
  import opened RawTokens
  import R = PostfixRoundTrip

  /** What a source tree says: an expression over variables and interned constants. */
  datatype Denotation = Denotes(expr: Expr, constants: seq<Text>) | Unsupported

  function DenotedLeaf(names: Names, token: Token, constants: seq<Text>): Denotation {
    if token.kind == Identifier && token.text in names then Denotes(Var(names[token.text]), constants)
    else if token.kind == Literal then
      Denotes(Const(Wrap(IndexIn(Interned(constants, token.text), token.text))), Interned(constants, token.text))
    else Unsupported
  }

  predicate Computes(op: Symbol) {
    Info(op).kind == BinaryOperator && op != Field && op != PointerField && op != Scope
  }

  /** Operators on identifiers and literals; constants are numbered as they are met, from left to right. */
  function Denoted(names: Names, e: Tree, constants: seq<Text>): Denotation
    decreases e
  {
    match e
    case Leaf(g) => if g.Simple? then DenotedLeaf(names, g.token, constants) else Unsupported
    case Infix(op, l, r) =>
      if !Computes(op) then Unsupported
      else
        (match Denoted(names, l, constants)
         case Denotes(x, k) =>
           (match Denoted(names, r, k)
            case Denotes(y, k2) => Denotes(Bin(OpCodeOf(op), x, y), k2)
            case Unsupported => Unsupported)
         case Unsupported => Unsupported)
    case Prefix(op, a) =>
      if op != MinusU && op != BitNotU then Unsupported
      else
        (match Denoted(names, a, constants)
         case Denotes(x, k) => Denotes(Un(OpCodeOf(op), x), k)
         case Unsupported => Unsupported)
    case Paren(a) => Denoted(names, a, constants)
    case _ => Unsupported
  }

  lemma ComputesBinary(op: Symbol)
    requires Computes(op)
    ensures IsBinary(OpCodeOf(op))
  {
  }

  /** Translating the node of a tree appends the code of what the tree says. */
  lemma {:induction false} NodeEmits(names: Names, e: Tree, code: seq<PseudoOp>, constants: seq<Text>)
    requires Denoted(names, e, constants).Denotes?
    ensures var d := Denoted(names, e, constants);
            && NodeOf(e).Built? && Analyzed(names, NodeOf(e).value, code, constants) == Emission(code + Compile(d.expr), d.constants)
            && OperatorsOk(d.expr)
    decreases e
  {
    match e
    case Leaf(g) =>
    case Infix(op, l, r) =>
      ComputesBinary(op);
      var x := Denoted(names, l, constants);
      NodeEmits(names, l, code, constants);
      NodeEmits(names, r, code + Compile(x.expr), x.constants);
      var y := Denoted(names, r, x.constants);
      BinaryEmits(names, op, NodeOf(l).value, NodeOf(r).value, code, constants, x, y);
    case Prefix(op, a) =>
      NodeEmits(names, a, code, constants);
      UnaryEmits(names, op, NodeOf(a).value, code, constants, Denoted(names, a, constants));
    case Paren(a) =>
      NodeEmits(names, a, code, constants);
  }

  lemma BinaryEmits(names: Names, op: Symbol, l: Node, r: Node, code: seq<PseudoOp>, constants: seq<Text>, x: Denotation, y: Denotation)
    requires Computes(op) && x.Denotes? && y.Denotes?
    requires Analyzed(names, l, code, constants) == Emission(code + Compile(x.expr), x.constants)
    requires Analyzed(names, r, code + Compile(x.expr), x.constants) == Emission(code + Compile(x.expr) + Compile(y.expr), y.constants)
    ensures Analyzed(names, Node(Operation, Token(Operator, Sym(op)), [l, r]), code, constants)
         == Emission(code + Compile(Bin(OpCodeOf(op), x.expr, y.expr)), y.constants)
  {
    var node := Node(Operation, Token(Operator, Sym(op)), [l, r]);
    assert Analyzed(names, node, code, constants) == AnalyzedOperation(names, node, op, code, constants);
    Reassociate(code, Compile(x.expr), Compile(y.expr), [Op(OpCodeOf(op))]);
  }

  lemma Reassociate<T>(a: seq<T>, b: seq<T>, c: seq<T>, d: seq<T>)
    ensures a + b + c + d == a + (b + c + d)
  {
  }

  lemma UnaryEmits(names: Names, op: Symbol, a: Node, code: seq<PseudoOp>, constants: seq<Text>, x: Denotation)
    requires (op == MinusU || op == BitNotU) && x.Denotes?
    requires Analyzed(names, a, code, constants) == Emission(code + Compile(x.expr), x.constants)
    ensures Analyzed(names, Node(Operation, Token(Operator, Sym(op)), [a]), code, constants)
         == Emission(code + Compile(Un(OpCodeOf(op), x.expr)), x.constants)
  {
    var node := Node(Operation, Token(Operator, Sym(op)), [a]);
    assert Analyzed(names, node, code, constants) == AnalyzedOperation(names, node, op, code, constants);
    assert code + Compile(x.expr) + [Op(OpCodeOf(op))] == code + (Compile(x.expr) + [Op(OpCodeOf(op))]);
  }

  // ----- assignments -----

  datatype AssignmentDenotation = Assigns(a: Expressions.Assignment, constants: seq<Text>) | NotAssigning

  function Bare(e: Tree): Tree {
    match e
    case Paren(a) => Bare(a)
    case _ => e
  }

  predicate IsAssignment(e: Tree) {
    e.Infix? && Info(e.op).kind == AssignmentOperator
  }

  predicate IsVariable(names: Names, e: Tree) {
    e.Leaf? && e.operand.Simple? && e.operand.token.kind == Identifier && e.operand.token.text in names
  }

  /** Assignments to variables, of an expression or of another assignment. */
  function DenotedAssignment(names: Names, e: Tree, constants: seq<Text>): AssignmentDenotation
    decreases e
  {
    match e
    case Paren(a) => DenotedAssignment(names, a, constants)
    case Infix(op, l, r) =>
      if !IsAssignment(e) || !IsVariable(names, Bare(l)) then NotAssigning
      else
        var target := names[Bare(l).operand.token.text];
        if IsAssignment(Bare(r)) then
          match DenotedAssignment(names, r, constants)
          case Assigns(inner, k) => Assigns(Expressions.Assignment(target, OpCodeOf(op), Chain(inner)), k)
          case NotAssigning => NotAssigning
        else
          (match Denoted(names, r, constants)
           case Denotes(x, k) => Assigns(Expressions.Assignment(target, OpCodeOf(op), Expressions.Plain(x)), k)
           case Unsupported => NotAssigning)
    case _ => NotAssigning
  }

  lemma {:induction false} BareNode(e: Tree)
    ensures NodeOf(e) == NodeOf(Bare(e))
  {
    match e
    case Paren(a) => BareNode(a);
    case _ =>
  }

  /** An expression's code does not end with an assignment. */
  lemma CompileEnds(e: Expr)
    requires OperatorsOk(e)
    ensures Compile(e) != [] && Last(Compile(e)).code != Assign
  {
    match e
    case Var(_) =>
    case Const(_) =>
    case Bin(op, l, r) => NotAnOperand(op);
    case Un(op, a) => NotAnOperand(op);
  }

  /** An assignment before another one leaves its value. */
  lemma {:induction false} InnerLeavesValue(a: Expressions.Assignment)
    ensures var code := CompileAssignment(a, Assign);
            code != [] && Last(code).code == Assign && code[|code| - 1 := Last(code).(code := AssignR)] == CompileAssignment(a, AssignR)
  {
    var front := CompileAssignment(a, Assign)[..|CompileAssignment(a, Assign)| - 1];
    assert CompileAssignment(a, Assign) == front + [PseudoOp(Assign, 0, a.compound)];
    assert CompileAssignment(a, AssignR) == front + [PseudoOp(AssignR, 0, a.compound)];
  }

  lemma TargetEmits(names: Names, e: Tree, code: seq<PseudoOp>, constants: seq<Text>)
    requires IsVariable(names, Bare(e))
    ensures NodeOf(e) == Built(Atom(Bare(e).operand.token))
    ensures Analyzed(names, NodeOf(e).value, code, constants)
         == Emission(code + [PseudoOp(Use, names[Bare(e).operand.token.text], Nop)], constants)
  {
    BareNode(e);
  }

  /** The right side's code behind the target, closed with the assignment. */
  lemma ClosedPlain(code: seq<PseudoOp>, target: Word, x: Expr, compound: PseudoOpCode)
    requires OperatorsOk(x)
    ensures Closed(Opened(code + [PseudoOp(Use, target, Nop)]), Compile(x), compound)
         == code + CompileAssignment(Expressions.Assignment(target, compound, Expressions.Plain(x)), Assign)
  {
    CompileEnds(x);
    var use, last := PseudoOp(Use, target, Nop), PseudoOp(Assign, 0, compound);
    assert Last(code + [use]) == use && Opened(code + [use]) == code + [use];
    assert Last(code + [use] + Compile(x)) == Last(Compile(x));
    Reassociate(code, [use], Compile(x), [last]);
  }

  lemma ClosedChain(code: seq<PseudoOp>, target: Word, inner: Expressions.Assignment, compound: PseudoOpCode)
    ensures Closed(Opened(code + [PseudoOp(Use, target, Nop)]), CompileAssignment(inner, Assign), compound)
         == code + CompileAssignment(Expressions.Assignment(target, compound, Chain(inner)), Assign)
  {
    InnerLeavesValue(inner);
    var use, last, right := PseudoOp(Use, target, Nop), PseudoOp(Assign, 0, compound), CompileAssignment(inner, Assign);
    assert Last(code + [use]) == use && Opened(code + [use]) == code + [use];
    var merged := code + [use] + right;
    assert Last(merged) == Last(right);
    assert merged[|merged| - 1 := Last(right).(code := AssignR)] == code + [use] + right[|right| - 1 := Last(right).(code := AssignR)];
    Reassociate(code, [use], CompileAssignment(inner, AssignR), [last]);
  }

  /** Translating an assignment appends the code of what it says. */
  lemma {:induction false} AssignmentEmits(names: Names, e: Tree, code: seq<PseudoOp>, constants: seq<Text>)
    requires DenotedAssignment(names, e, constants).Assigns?
    ensures var d := DenotedAssignment(names, e, constants);
            NodeOf(e).Built? && Analyzed(names, NodeOf(e).value, code, constants) == Emission(code + CompileAssignment(d.a, Assign), d.constants)
    decreases e
  {
    hide Denoted, Closed, Opened, OpCodeOf, CompileAssignment;
    match e
    case Paren(a) =>
      AssignmentEmits(names, a, code, constants);
    case Infix(op, l, r) =>
      var target := names[Bare(l).operand.token.text];
      if IsAssignment(Bare(r)) {
        var d := DenotedAssignment(names, r, constants);
        AssignmentEmits(names, r, [], constants);
        assert [] + CompileAssignment(d.a, Assign) == CompileAssignment(d.a, Assign);
        TargetEmits(names, l, code, d.constants);
        ClosedChain(code, target, d.a, OpCodeOf(op));
        AssignmentNode(names, op, NodeOf(l).value, NodeOf(r).value, code, constants);
      } else {
        var d := Denoted(names, r, constants);
        NodeEmits(names, r, [], constants);
        assert [] + Compile(d.expr) == Compile(d.expr);
        TargetEmits(names, l, code, d.constants);
        ClosedPlain(code, target, d.expr, OpCodeOf(op));
        AssignmentNode(names, op, NodeOf(l).value, NodeOf(r).value, code, constants);
      }
  }

  lemma AssignmentNode(names: Names, op: Symbol, l: Node, r: Node, code: seq<PseudoOp>, constants: seq<Text>)
    requires Info(op).kind == AssignmentOperator
    requires Analyzed(names, r, [], constants).Emission?
    requires Analyzed(names, l, code, Analyzed(names, r, [], constants).constants).Emission?
    ensures var right := Analyzed(names, r, [], constants);
            var left := Analyzed(names, l, code, right.constants);
            Analyzed(names, Node(Operation, Token(Operator, Sym(op)), [l, r]), code, constants)
            == if left.code == [] then Reported else Emission(Closed(Opened(left.code), right.code, OpCodeOf(op)), left.constants)
  {
    hide Closed, Opened, OpCodeOf;
    var node := Node(Operation, Token(Operator, Sym(op)), [l, r]);
    assert Analyzed(names, node, code, constants) == AnalyzedOperation(names, node, op, code, constants);
  }

  // ----- the whole front end -----

  /** Names joined, postfix form, tree, pseudo code. */
  function Translation(names: Names, tokens: seq<Token>, constants: seq<Text>): Emission {
    match BuildTreeOf(PostfixSpec.Postfix(tokens))
    case Built(node) => Analyzed(names, node, [], constants)
    case SyntaxError => Reported
  }

  /** Operands are tokens, and the scope operator is no operator of the tree. */
  predicate OfTokens(e: Tree)
    decreases e
  {
    match e
    case Leaf(g) => g.Simple?
    case Infix(op, l, r) => op != Scope && OfTokens(l) && OfTokens(r)
    case Prefix(op, a) => OfTokens(a)
    case Paren(a) => OfTokens(a)
    case _ => false
  }

  lemma ChildWritable(bare: bool, x: seq<Group>)
    requires AllWritable(x)
    ensures AllWritable(Child(bare, x))
  {
  }

  lemma {:induction false} TokensWritable(e: Tree)
    requires TreeOk(e, false) && OfTokens(e)
    ensures AllWritable(Print(e))
    decreases e
  {
    hide AllWritable, Child;
    match e
    case Leaf(g) => OneWritable(g.token);
    case Infix(op, l, r) =>
      TokensWritable(l);
      TokensWritable(r);
      ChildWritable(BareLeft(op, l), Print(l));
      ChildWritable(BareRight(op, r), Print(r));
      InfixWritable(Child(BareLeft(op, l), Print(l)), op, Child(BareRight(op, r), Print(r)));
    case Prefix(op, a) =>
      TokensWritable(a);
      ChildWritable(BareArg(op, a), Print(a));
      PrefixWritable(op, Child(BareArg(op, a), Print(a)));
    case Paren(a) =>
      TokensWritable(a);
      ParenWritable(Print(a));
  }

  lemma OneWritable(t: Token)
    requires IsOperand(Simple(t))
    ensures AllWritable([Simple(t)])
  {
  }

  lemma InfixWritable(x: seq<Group>, op: Symbol, y: seq<Group>)
    requires AllWritable(x) && AllWritable(y) && op != Scope
    ensures AllWritable(x + [OpToken(op)] + y)
  {
  }

  lemma PrefixWritable(op: Symbol, x: seq<Group>)
    requires AllWritable(x) && IsPrefix(op)
    ensures AllWritable([OpToken(op)] + x)
  {
  }

  lemma ParenWritable(x: seq<Group>)
    requires AllWritable(x)
    ensures AllWritable([Mark(LParen)] + x + [Mark(RParen)])
  {
  }

  lemma {:induction false} DenotedOfTokens(names: Names, e: Tree, constants: seq<Text>)
    requires Denoted(names, e, constants).Denotes?
    ensures OfTokens(e)
    decreases e
  {
    match e
    case Leaf(g) =>
    case Infix(op, l, r) =>
      DenotedOfTokens(names, l, constants);
      DenotedOfTokens(names, r, Denoted(names, l, constants).constants);
    case Prefix(op, a) =>
      DenotedOfTokens(names, a, constants);
    case Paren(a) =>
      DenotedOfTokens(names, a, constants);
  }

  lemma {:induction false} BareOfTokens(e: Tree)
    ensures OfTokens(Bare(e)) ==> OfTokens(e)
  {
    match e
    case Paren(a) => BareOfTokens(a);
    case _ =>
  }

  lemma {:induction false} AssignmentOfTokens(names: Names, e: Tree, constants: seq<Text>)
    requires DenotedAssignment(names, e, constants).Assigns?
    ensures OfTokens(e)
    decreases e
  {
    match e
    case Paren(a) =>
      AssignmentOfTokens(names, a, constants);
    case Infix(op, l, r) =>
      BareOfTokens(l);
      if IsAssignment(Bare(r)) {
        AssignmentOfTokens(names, r, constants);
      } else {
        DenotedOfTokens(names, r, constants);
      }
  }

  /** The tokens of a tree are translated as the tree's node is. */
  lemma FrontEnd(names: Names, e: Tree, constants: seq<Text>)
    requires TreeOk(e, false) && NodeOf(e).Built? && OfTokens(e)
    ensures Translation(names, SourceOf(e), constants) == Analyzed(names, NodeOf(e).value, [], constants)
  {
    hide Build, Analyzed, PostOrder, NodeOf, Print;
    TokensWritable(e);
    RawTreeBuilds(e);
    R.BuildTree(e, false);
    PostOrderBuilds(e, false, []);
    var node := NodeOf(e).value;
    assert [] + [node] == [node];
    PrintedLength(e);
    if |Print(e)| == 1 {
      R.SingleIsLeaf(e, false);
      LeafAlone(e, node);
    } else {
      assert BuildTreeOf(Build(Print(e))) == Built(Composed(Grouped(Root), [node]));
      RootOf(names, node, constants);
    }
  }

  lemma PrintedLength(e: Tree)
    requires OfTokens(e)
    ensures |Print(e)| >= 1 && (e.Leaf? ==> e.operand.Simple?)
  {
  }

  lemma LeafAlone(e: Tree, node: Node)
    requires e.Leaf? && e.operand.Simple? && NodeOf(e) == Built(node)
    ensures BuildTreeOf(Build(Print(e))) == Built(node)
  {
  }

  /** A root passes its one child on. */
  lemma RootOf(names: Names, node: Node, constants: seq<Text>)
    ensures Analyzed(names, Composed(Grouped(Root), [node]), [], constants) == Analyzed(names, node, [], constants)
  {
    assert [node][1..] == [];
    var r := Analyzed(names, node, [], constants);
    if r.Emission? {
      assert AnalyzedAll(names, [], r.code, r.constants) == r;
    }
  }

  /** The tokens of an expression are translated to the code of what its tree says. */
  lemma ExpressionTranslated(names: Names, e: Tree, constants: seq<Text>)
    requires TreeOk(e, false) && Denoted(names, e, constants).Denotes?
    ensures var d := Denoted(names, e, constants);
            Translation(names, SourceOf(e), constants) == Emission(Compile(d.expr), d.constants) && OperatorsOk(d.expr)
  {
    hide Build, Analyzed, NodeOf, Print;
    var d := Denoted(names, e, constants);
    DenotedOfTokens(names, e, constants);
    NodeEmits(names, e, [], constants);
    FrontEnd(names, e, constants);
    assert [] + Compile(d.expr) == Compile(d.expr);
  }

  /** The tokens of an assignment are translated to the code of what its tree says. */
  lemma AssignmentTranslated(names: Names, e: Tree, constants: seq<Text>)
    requires TreeOk(e, false) && DenotedAssignment(names, e, constants).Assigns?
    ensures var d := DenotedAssignment(names, e, constants);
            Translation(names, SourceOf(e), constants) == Emission(CompileAssignment(d.a, Assign), d.constants)
  {
    hide Build, Analyzed, NodeOf, Print;
    var d := DenotedAssignment(names, e, constants);
    AssignmentOfTokens(names, e, constants);
    AssignmentEmits(names, e, [], constants);
    FrontEnd(names, e, constants);
    assert [] + CompileAssignment(d.a, Assign) == CompileAssignment(d.a, Assign);
  }
}
