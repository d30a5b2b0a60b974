/** From postfix groups to syntax trees: operands are stacked, operators take theirs off. */
module SyntaxTrees {
  import opened Tokens
  import opened PostfixSpec
  import opened PrintedTrees

  datatype NodeKind = Plain | Grouped(kind: GroupType) | Operation | Declaration | AccessChain | TypeCast | NewExpression

  /** token: the operator of an operation, undefined for other composed nodes. */
  datatype Node = Node(kind: NodeKind, token: Token, children: seq<Node>)

  datatype Built<+T> = SyntaxError | Built(value: T)

  function Atom(token: Token): Node {
    Node(Plain, token, [])
  }

  function Composed(kind: NodeKind, children: seq<Node>): Node {
    Node(kind, NoToken(), children)
  }

  /** An operator takes its operands off the stack, the right one first, and leaves one node. */
  function Reduce(stack: seq<Node>, token: Token): Built<seq<Node>> {
    if !token.text.Sym? then SyntaxError
    else
      var kind, n := Info(token.text.op).kind, |stack|;
      if kind == UnaryOperator then
        if n == 0 then SyntaxError else Built(stack[..n - 1] + [Node(Operation, token, [stack[n - 1]])])
      else if n < 2 then SyntaxError
      else if kind == BinaryOperator || kind == AssignmentOperator then
        Built(stack[..n - 2] + [Node(Operation, token, [stack[n - 2], stack[n - 1]])])
      else if kind == DeclarationOperator && stack[n - 2].token.kind == Identifier then
        Built(stack[..n - 2] + [Composed(Declaration, [stack[n - 2], stack[n - 1]])])
      else SyntaxError
  }

  /** The words new and to: an object's type, an expression and its target type. */
  function Convert(stack: seq<Node>, token: Token): Built<seq<Node>> {
    var n := |stack|;
    if token.text == Sym(To) then
      if n < 2 then SyntaxError else Built(stack[..n - 2] + [Composed(TypeCast, [stack[n - 2], Atom(token), stack[n - 1]])])
    else if token.text == Sym(New) then
      if n < 1 then SyntaxError else Built(stack[..n - 1] + [Composed(NewExpression, [Atom(token), stack[n - 1]])])
    else Built(stack)
  }

  function Stacked(stack: seq<Node>, token: Token): Built<seq<Node>> {
    match token.kind
    case Identifier | Literal | TypeMarker => Built(stack + [Atom(token)])
    case Operator => Reduce(stack, token)
    case Keyword => if token.text.Sym? then Convert(stack, token) else Built(stack + [Atom(token)])
    case _ => Built(stack)
  }

  /** An index joins the chain of indices before it, or starts one with what it indexes. */
  function Accessed(stack: seq<Node>, access: Node): Built<seq<Node>> {
    var n := |stack|;
    if access.children == [] || n == 0 then SyntaxError
    else
      var back := stack[n - 1];
      Built(stack[..n - 1] + [if back.kind == AccessChain then back.(children := back.children + [access])
                              else Composed(AccessChain, [back, access])])
  }

  function BuildNodes(parts: seq<Group>, stack: seq<Node>): Built<seq<Node>>
    decreases parts
  {
    if parts == [] then Built(stack)
    else
      var next := match parts[0]
                  case Simple(token) => Stacked(stack, token)
                  case Complex(kind, inner) =>
                    (match BuildNodes(inner, [])
                     case SyntaxError => SyntaxError
                     case Built(children) =>
                       var node := Composed(Grouped(kind), children);
                       if kind == DataAccess then Accessed(stack, node) else Built(stack + [node]));
      if next.SyntaxError? then SyntaxError else BuildNodes(parts[1..], next.value)
  }

  /** The tree of a whole postfix form. */
  function BuildTreeOf(root: Group): Built<Node> {
    match root
    case Simple(token) => Built(Atom(token))
    case Complex(_, parts) =>
      match BuildNodes(parts, [])
      case SyntaxError => SyntaxError
      case Built(stack) => Built(if stack == [] then Atom(NoToken()) else Composed(Grouped(Root), stack))
  }

  // ----- the tree of a printed expression -----

  /** The node of an expression, unless it indexes with nothing or declares something that is no identifier. */
  function NodeOf(e: Tree): Built<Node>
    decreases e
  {
    match e
    case Leaf(g) => OperandNode(g)
    case Named(markers, name) => GroupNode(Complex(TypeName, markers + [name]))
    case Infix(op, l, r) =>
      (match (NodeOf(l), NodeOf(r))
       case (Built(x), Built(y)) =>
         if Info(op).kind == DeclarationOperator then
           if x.token.kind == Identifier then Built(Composed(Declaration, [x, y])) else SyntaxError
         else Built(Node(Operation, Token(Operator, Sym(op)), [x, y]))
       case _ => SyntaxError)
    case Prefix(op, a) => Applied(op, NodeOf(a))
    case Suffix(op, a) => Applied(op, NodeOf(a))
    case Access(base, args) =>
      (match (NodeOf(base), NodesOf(args))
       case (Built(x), Built(ys)) =>
         if ys == [] then SyntaxError
         else
           var access := Composed(Grouped(DataAccess), ys);
           Built(if x.kind == AccessChain then x.(children := x.children + [access]) else Composed(AccessChain, [x, access]))
       case _ => SyntaxError)
    case Array(args) =>
      (match NodesOf(args)
       case Built(ys) => Built(Composed(Grouped(ArrayLiteral), ys))
       case SyntaxError => SyntaxError)
    case Paren(a) => NodeOf(a)
  }

  function Applied(op: Symbol, arg: Built<Node>): Built<Node> {
    match arg
    case Built(x) => Built(Node(Operation, Token(Operator, Sym(op)), [x]))
    case SyntaxError => SyntaxError
  }

  function GroupNode(g: Group): Built<Node>
    requires g.Complex?
  {
    match BuildNodes(g.parts, [])
    case Built(children) => Built(Composed(Grouped(g.kind), children))
    case SyntaxError => SyntaxError
  }

  function OperandNode(g: Group): Built<Node> {
    if g.Simple? then Built(Atom(g.token)) else GroupNode(g)
  }

  /** One node an argument. */
  function NodesOf(args: seq<Tree>): Built<seq<Node>>
    decreases args
  {
    if args == [] then Built([])
    else
      match (NodeOf(args[0]), NodesOf(args[1..]))
      case (Built(x), Built(ys)) => Built([Composed(Grouped(Argument), [x])] + ys)
      case _ => SyntaxError
  }

  /** The stack with what was built on top. */
  function Landed(stack: seq<Node>, r: Built<Node>): Built<seq<Node>> {
    match r
    case Built(n) => Built(stack + [n])
    case SyntaxError => SyntaxError
  }

  lemma {:induction false} BuildAppend(a: seq<Group>, b: seq<Group>, stack: seq<Node>)
    ensures BuildNodes(a + b, stack) == match BuildNodes(a, stack)
                                        case Built(s) => BuildNodes(b, s)
                                        case SyntaxError => SyntaxError
    decreases |a|
  {
    if a == [] {
      assert a + b == b;
    } else {
      assert (a + b)[0] == a[0] && (a + b)[1..] == a[1..] + b;
      var one := BuildNodes([a[0]], stack);
      OneGroup(a[0], a[1..], stack);
      OneGroup(a[0], a[1..] + b, stack);
      assert [a[0]] + a[1..] == a && [a[0]] + (a[1..] + b) == a + b;
      if one.Built? {
        BuildAppend(a[1..], b, one.value);
      }
    }
  }

  lemma OneGroup(g: Group, rest: seq<Group>, stack: seq<Node>)
    ensures BuildNodes([g] + rest, stack) == match BuildNodes([g], stack)
                                             case Built(s) => BuildNodes(rest, s)
                                             case SyntaxError => SyntaxError
  {
    var all := [g] + rest;
    assert all[0] == g && all[1..] == rest && [g][0] == g && [g][1..] == [];
  }

  /** From the post-order of an expression exactly its node is built, on top of what was there, and errors are found exactly where they are. */
  lemma {:induction false} PostOrderBuilds(e: Tree, bracketed: bool, stack: seq<Node>)
    requires TreeOk(e, bracketed)
    ensures BuildNodes(PostOrder(e), stack) == Landed(stack, NodeOf(e))
    decreases e, 1
  {
    hide BuildNodes, GroupNode;
    match e
    case Leaf(g) =>
      OperandBuilds(g, stack);
    case Named(markers, name) =>
      OperandBuilds(Complex(TypeName, markers + [name]), stack);
    case Infix(op, l, r) =>
      InfixBuilds(op, l, r, bracketed, stack);
    case Prefix(op, a) =>
      UnaryBuilds(op, a, bracketed, stack);
    case Suffix(op, a) =>
      UnaryBuilds(op, a, bracketed, stack);
    case Access(base, args) =>
      AccessBuilds(base, args, bracketed, stack);
    case Array(args) =>
      ArrayBuilds(args, stack);
    case Paren(a) =>
      PostOrderBuilds(a, bracketed, stack);
  }

  lemma OperandBuilds(g: Group, stack: seq<Node>)
    requires IsOperand(g) || (g.Complex? && g.kind == TypeName)
    ensures BuildNodes([g], stack) == Landed(stack, OperandNode(g))
  {
    assert [g][1..] == [];
  }

  lemma {:induction false} ArrayBuilds(args: seq<Tree>, stack: seq<Node>)
    requires forall k :: 0 <= k < |args| ==> TreeOk(args[k], true)
    ensures BuildNodes([Complex(ArrayLiteral, Arguments(args))], stack) == Landed(stack, NodeOf(Array(args)))
    decreases Array(args), 0
  {
    ArgumentsBuild(args, []);
    var group := Complex(ArrayLiteral, Arguments(args));
    assert [group][1..] == [];
    if NodesOf(args).Built? {
      assert [] + NodesOf(args).value == NodesOf(args).value;
    }
  }

  lemma {:induction false} InfixBuilds(op: Symbol, l: Tree, r: Tree, bracketed: bool, stack: seq<Node>)
    requires TreeOk(Infix(op, l, r), bracketed)
    ensures BuildNodes(PostOrder(l) + PostOrder(r) + [OpToken(op)], stack) == Landed(stack, NodeOf(Infix(op, l, r)))
    decreases Infix(op, l, r), 0
  {
    PostOrderBuilds(l, bracketed, stack);
    BuildAppend(PostOrder(l), PostOrder(r), stack);
    BuildAppend(PostOrder(l) + PostOrder(r), [OpToken(op)], stack);
    if NodeOf(l).Built? {
      PostOrderBuilds(r, bracketed, stack + [NodeOf(l).value]);
      if NodeOf(r).Built? {
        InfixReduced(op, stack, NodeOf(l).value, NodeOf(r).value);
      }
    }
  }

  lemma {:induction false} AccessBuilds(base: Tree, args: seq<Tree>, bracketed: bool, stack: seq<Node>)
    requires TreeOk(Access(base, args), bracketed)
    ensures BuildNodes(PostOrder(base) + [Complex(DataAccess, Arguments(args))], stack) == Landed(stack, NodeOf(Access(base, args)))
    decreases Access(base, args), 0
  {
    var group := Complex(DataAccess, Arguments(args));
    PostOrderBuilds(base, bracketed, stack);
    ArgumentsBuild(args, []);
    BuildAppend(PostOrder(base), [group], stack);
    assert [group][1..] == [];
    if NodeOf(base).Built? && NodesOf(args).Built? {
      assert [] + NodesOf(args).value == NodesOf(args).value;
      var s := stack + [NodeOf(base).value];
      assert s[..|s| - 1] == stack;
    }
  }

  lemma InfixReduced(op: Symbol, stack: seq<Node>, x: Node, y: Node)
    requires IsInfix(op)
    ensures BuildNodes([OpToken(op)], stack + [x] + [y])
         == if Info(op).kind == DeclarationOperator then
              if x.token.kind == Identifier then Built(stack + [Composed(Declaration, [x, y])]) else SyntaxError
            else Built(stack + [Node(Operation, Token(Operator, Sym(op)), [x, y])])
  {
    var s := stack + [x] + [y];
    assert s[..|s| - 2] == stack && s[|s| - 2] == x && s[|s| - 1] == y;
    assert [OpToken(op)][1..] == [];
  }

  lemma {:induction false} UnaryBuilds(op: Symbol, a: Tree, bracketed: bool, stack: seq<Node>)
    requires TreeOk(a, bracketed) && Info(op).kind == UnaryOperator
    ensures BuildNodes(PostOrder(a) + [OpToken(op)], stack) == Landed(stack, Applied(op, NodeOf(a)))
    decreases a, 2
  {
    PostOrderBuilds(a, bracketed, stack);
    BuildAppend(PostOrder(a), [OpToken(op)], stack);
    if NodeOf(a).Built? {
      var s := stack + [NodeOf(a).value];
      assert s[..|s| - 1] == stack;
      assert [OpToken(op)][1..] == [];
    }
  }

  lemma {:induction false} ArgumentsBuild(args: seq<Tree>, stack: seq<Node>)
    requires forall k :: 0 <= k < |args| ==> TreeOk(args[k], true)
    ensures BuildNodes(Arguments(args), stack) == match NodesOf(args)
                                                  case Built(ns) => Built(stack + ns)
                                                  case SyntaxError => SyntaxError
    decreases args
  {
    if args == [] {
      assert stack + [] == stack;
    } else {
      PostOrderBuilds(args[0], true, []);
      assert Arguments(args) == [Complex(Argument, PostOrder(args[0]))] + Arguments(args[1..]);
      OneGroup(Complex(Argument, PostOrder(args[0])), Arguments(args[1..]), stack);
      if NodeOf(args[0]).Built? {
        var n := Composed(Grouped(Argument), [NodeOf(args[0]).value]);
        assert [] + [NodeOf(args[0]).value] == [NodeOf(args[0]).value];
        ArgumentsBuild(args[1..], stack + [n]);
        if NodesOf(args[1..]).Built? {
          assert stack + [n] + NodesOf(args[1..]).value == stack + ([n] + NodesOf(args[1..]).value);
        }
      }
    }
  }

  // ----- the builder -----

  method BuildParts(parts: seq<Group>) returns (r: Built<seq<Node>>)
    ensures r == BuildNodes(parts, [])
    decreases parts
  {
    var stack: seq<Node> := [];
    var i := 0;
    while i < |parts|
      invariant i <= |parts| && BuildNodes(parts, []) == BuildNodes(parts[i..], stack)
    {
      assert parts[i..][0] == parts[i] && parts[i..][1..] == parts[i + 1..];
      var next: Built<seq<Node>>;
      if parts[i].Simple? {
        next := Stacked(stack, parts[i].token);
      } else {
        var inner := BuildParts(parts[i].parts);
        if inner.SyntaxError? { return SyntaxError; }
        var node := Composed(Grouped(parts[i].kind), inner.value);
        next := if parts[i].kind == DataAccess then Accessed(stack, node) else Built(stack + [node]);
      }
      if next.SyntaxError? { return SyntaxError; }
      stack := next.value;
      i := i + 1;
    }
    r := Built(stack);
  }

  method BuildAPST(root: Group) returns (r: Built<Node>)
    ensures r == BuildTreeOf(root)
  {
    if root.Simple? { return Built(Atom(root.token)); }
    var stack := BuildParts(root.parts);
    if stack.SyntaxError? { return SyntaxError; }
    r := Built(if stack.value == [] then Atom(NoToken()) else Composed(Grouped(Root), stack.value));
  }
}
