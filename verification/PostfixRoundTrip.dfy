/** Printing an expression tree with the parentheses it needs and building the postfix form gives the tree's post-order. */
module PostfixRoundTrip {
  import opened Tokens
  import opened PostfixSpec
  import opened PrintedTrees
  import Postfix

  // ----- one token -----

  lemma ReadSimple(tokens: seq<Group>, p: nat, y: Yard)
    requires p < |tokens| && Identify(tokens, p) == SimpleToken && TokenOf(tokens[p]).kind != TypeMarker
    ensures Read(tokens, p, y) == Read(tokens, p + 1, Shunt(y, tokens[p]))
  {
  }

  lemma ReadOperator(tokens: seq<Group>, p: nat, op: Symbol, ops: seq<Group>, pending: seq<Group>, out: seq<Group>)
    requires At(tokens, p, [OpToken(op)]) && Steady(ops, Priority(op))
    requires forall k :: 0 <= k < |pending| ==> TextOf(pending[k]).Sym? && Pops(TextOf(pending[k]).op, op)
    ensures Read(tokens, p, Yard(ops + pending, out)) == Read(tokens, p + 1, Yard(ops + [OpToken(op)], out + Unwind(pending)))
  {
    hide Read, Pops;
    AtOne(tokens, p, OpToken(op));
    PendingLeaves(ops, pending, op);
    ReadSimple(tokens, p, Yard(ops + pending, out));
  }

  lemma ReadOpen(tokens: seq<Group>, p: nat, y: Yard)
    requires At(tokens, p, [Mark(LParen)])
    ensures Read(tokens, p, y) == Read(tokens, p + 1, Yard(y.ops + [Mark(LParen)], y.out))
  {
    AtOne(tokens, p, Mark(LParen));
    ReadSimple(tokens, p, y);
  }

  lemma ReadClose(tokens: seq<Group>, p: nat, ops: seq<Group>, pending: seq<Group>, out: seq<Group>, level: int)
    requires At(tokens, p, [Mark(RParen)]) && AtLeast(pending, level)
    ensures Read(tokens, p, Yard(ops + [Mark(LParen)] + pending, out)) == Read(tokens, p + 1, Yard(ops, out + Unwind(pending)))
  {
    hide Read;
    AtOne(tokens, p, Mark(RParen));
    var open := ops + [Mark(LParen)];
    PendingClosed(open, pending, level);
    ReadSimple(tokens, p, Yard(open + pending, out));
    assert open[..|open| - 1] == ops;
  }

  // ----- operator levels -----

  /** Pending operators at least as strong as a bare left operand give way to the operator after it. */
  lemma LeftGivesWay(op: Symbol, l: Tree)
    requires (IsInfix(op) && BareLeft(op, l)) || (IsSuffix(op) && BareArg(op, l))
    ensures Level(l) >= Priority(op)
    ensures forall k :: 0 <= k < |Pending(l)| ==> TextOf(Pending(l)[k]).Sym? && Pops(TextOf(Pending(l)[k]).op, op)
  {
    PendingStrong(l);
    forall k | 0 <= k < |Pending(l)|
      ensures TextOf(Pending(l)[k]).Sym? && Pops(TextOf(Pending(l)[k]).op, op)
    {
      LevelsAgree(TextOf(Pending(l)[k]).op);
      LevelsAgree(op);
    }
  }

  /** An operator keeps out those of a bare operand to its right. */
  lemma RightStaysOut(op: Symbol, r: Tree)
    requires (IsInfix(op) && BareRight(op, r)) || (IsPrefix(op) && BareArg(op, r))
    ensures KeepsOut(op, Level(r))
  {
    forall o: Symbol | Priority(o) >= Level(r)
      ensures !Pops(op, o)
    {
      LevelsAgree(o);
      LevelsAgree(op);
    }
  }

  lemma SteadyAfter(ops: seq<Group>, op: Symbol, level: int)
    requires KeepsOut(op, level)
    ensures Steady(ops + [OpToken(op)], level)
  {
  }

  lemma SteadyOpen(ops: seq<Group>, level: int)
    ensures Steady(ops + [Mark(LParen)], level)
  {
  }

  // ----- reading a tree -----

  /** Reading the printed tree moves it to the output, but for the operators it leaves waiting. */
  ghost predicate Moves(tokens: seq<Group>, p: nat, e: Tree, ops: seq<Group>, out: seq<Group>) {
    p + |Print(e)| <= |tokens| &&
    Read(tokens, p, Yard(ops, out)) == Read(tokens, p + |Print(e)|, Yard(ops + Pending(e), out + Emitted(e)))
  }

  /** A child that stands in parentheses when it has to. */
  ghost predicate ChildMoves(tokens: seq<Group>, p: nat, e: Tree, bare: bool, ops: seq<Group>, out: seq<Group>) {
    p + |Child(bare, Print(e))| <= |tokens| &&
    Read(tokens, p, Yard(ops, out)) ==
    Read(tokens, p + |Child(bare, Print(e))|,
         if bare then Yard(ops + Pending(e), out + Emitted(e)) else Yard(ops, out + PostOrder(e)))
  }

  predicate Between(tokens: seq<Group>, p: nat, q: nat) {
    PrevOk(tokens, p) && NextOk(tokens, q)
  }

  /** What reading needs to know of each kind of tree. */
  lemma TreeParts(e: Tree, bracketed: bool)
    requires TreeOk(e, bracketed)
    ensures e.Leaf? ==> Print(e) == [e.operand] && IsOperand(e.operand)
    ensures e.Named? ==> Print(e) == e.markers + [e.name] && TreeOk(Named(e.markers, e.name), false)
    ensures e.Infix? || e.Prefix? || e.Suffix? ==> Level(e) == Priority(e.op)
    ensures e.Access? ==> Level(e) == 13
    ensures e.Array? ==> forall k :: 0 <= k < |e.args| ==> TreeOk(e.args[k], true)
    ensures e.Paren? ==> TreeOk(e.inner, bracketed)
  {
    hide Priority, PlainText, NamesSomething;
  }

  lemma {:induction false} ReadTree(tokens: seq<Group>, p: nat, e: Tree, ops: seq<Group>, out: seq<Group>, bracketed: bool)
    requires TreeOk(e, bracketed) && At(tokens, p, Print(e)) && Steady(ops, Level(e))
    requires Between(tokens, p, p + |Print(e)|)
    ensures Moves(tokens, p, e, ops, out)
    decreases e, 1
  {
    hide Read, Steady, KeepsOut, Pops, At, Priority, Info, Depth, PostOrder, Moves, Pending, Emitted, Child, Print, TreeOk, Level, IsOperand,
         PrevOk, NextOk;
    TreeParts(e, bracketed);
    match e
    case Leaf(g) => ReadLeaf(tokens, p, g, ops, out);
    case Named(markers, name) => ReadNamed(tokens, p, markers, name, ops, out);
    case Infix(op, l, r) => ReadInfix(tokens, p, op, l, r, ops, out, bracketed);
    case Prefix(op, a) => ReadPrefix(tokens, p, op, a, ops, out, bracketed);
    case Suffix(op, a) => ReadSuffix(tokens, p, op, a, ops, out, bracketed);
    case Access(base, args) => ReadAccess(tokens, p, base, args, ops, out, bracketed);
    case Array(args) => ReadArray(tokens, p, args, ops, out);
    case Paren(a) => ReadParen(tokens, p, a, ops, out, bracketed);
  }

  lemma {:induction false} ReadArray(tokens: seq<Group>, p: nat, args: seq<Tree>, ops: seq<Group>, out: seq<Group>)
    requires forall k :: 0 <= k < |args| ==> TreeOk(args[k], true)
    requires At(tokens, p, Print(Array(args))) && Between(tokens, p, p + |Print(Array(args))|)
    ensures Moves(tokens, p, Array(args), ops, out)
    decreases Array(args), 0
  {
    hide Read, At, Depth, TreeOk, PrintArgs, Arguments, PrevOk, NextOk, Identify, Level, PostOrder;
    ArrayParts(args);
    LiteralStarts(tokens, p);
    ReadBrackets(tokens, p, args, Yard(ops, out), ArrayLiteral);
    assert ops + [] == ops;
  }

  lemma ArrayParts(args: seq<Tree>)
    ensures Print(Array(args)) == [Mark(LBracket)] + PrintArgs(args) + [Mark(RBracket)]
    ensures Pending(Array(args)) == [] && Emitted(Array(args)) == [Complex(ArrayLiteral, Arguments(args))]
  {
    hide PrintArgs, Arguments;
  }

  lemma ParenParts(a: Tree)
    ensures Print(Paren(a)) == Child(false, Print(a)) && Pending(Paren(a)) == [] && Emitted(Paren(a)) == PostOrder(a)
  {
  }

  lemma {:induction false} ReadParen(tokens: seq<Group>, p: nat, a: Tree, ops: seq<Group>, out: seq<Group>, bracketed: bool)
    requires TreeOk(a, bracketed) && At(tokens, p, Print(Paren(a))) && Between(tokens, p, p + |Print(Paren(a))|)
    ensures Moves(tokens, p, Paren(a), ops, out)
    decreases Paren(a), 0
  {
    hide Read, At, Depth, Steady, KeepsOut, Priority, Info, TreeOk, Unwind, AtLeast, Level, PostOrder, Pops, PrevOk, NextOk;
    ParenParts(a);
    ReadChild(tokens, p, a, false, ops, out, bracketed);
    assert ops + [] == ops;
  }

  lemma ReadLeaf(tokens: seq<Group>, p: nat, g: Group, ops: seq<Group>, out: seq<Group>)
    requires IsOperand(g) && At(tokens, p, [g]) && NextOk(tokens, p + 1)
    ensures Moves(tokens, p, Leaf(g), ops, out)
  {
    AtOne(tokens, p, g);
    ReadSimple(tokens, p, Yard(ops, out));
    assert ops + [] == ops;
  }

  lemma {:induction false} MarkersRun(tokens: seq<Group>, j: nat, k: nat)
    requires j <= k < |tokens| && TokenOf(tokens[k]).kind != TypeMarker
    requires forall i :: j <= i < k ==> TokenOf(tokens[i]).kind == TypeMarker
    ensures MarkersEnd(tokens, j) == k
    decreases k - j
  {
    if j < k {
      MarkersRun(tokens, j + 1, k);
    }
  }

  lemma ReadType(tokens: seq<Group>, p: nat, y: Yard)
    requires p < |tokens| && TokenOf(tokens[p]).kind == TypeMarker
    ensures Read(tokens, p, y) == Read(tokens, AfterType(tokens, p), y.(out := y.out + TypeGroup(tokens, p)))
  {
    hide AfterType, TypeGroup;
  }

  lemma ReadNamed(tokens: seq<Group>, p: nat, markers: seq<Group>, name: Group, ops: seq<Group>, out: seq<Group>)
    requires TreeOk(Named(markers, name), false) && At(tokens, p, markers + [name])
    ensures Moves(tokens, p, Named(markers, name), ops, out)
  {
    hide Read;
    var k := p + |markers|;
    AtSplit(tokens, p, markers, [name]);
    AtOne(tokens, k, name);
    forall i | p <= i < k
      ensures TokenOf(tokens[i]).kind == TypeMarker
    {
      assert tokens[i] == markers[i - p];
    }
    MarkersRun(tokens, p + 1, k);
    assert tokens[p..k + 1] == markers + [name];
    NothingAfter(ops);
    ReadType(tokens, p, Yard(ops, out));
  }

  lemma {:induction false} ReadChild(tokens: seq<Group>, p: nat, e: Tree, bare: bool, ops: seq<Group>, out: seq<Group>, bracketed: bool)
    requires TreeOk(e, bracketed) && At(tokens, p, Child(bare, Print(e))) && (bare ==> Steady(ops, Level(e)))
    requires Between(tokens, p, p + |Child(bare, Print(e))|)
    ensures ChildMoves(tokens, p, e, bare, ops, out)
    decreases e, 2
  {
    hide Read, Steady, KeepsOut, Pops, At, Priority, Info, Depth, Print, PostOrder, Emitted, Pending, TreeOk, Unwind, AtLeast, Level;
    if bare {
      ReadTree(tokens, p, e, ops, out, bracketed);
    } else {
      var open, close := [Mark(LParen)], [Mark(RParen)];
      AtSplit(tokens, p, open + Print(e), close);
      AtSplit(tokens, p, open, Print(e));
      var q := p + 1 + |Print(e)|;
      AtOne(tokens, p, Mark(LParen));
      AtOne(tokens, q, Mark(RParen));
      ReadOpen(tokens, p, Yard(ops, out));
      SteadyOpen(ops, Level(e));
      ReadTree(tokens, p + 1, e, ops + open, out, bracketed);
      PendingStrong(e);
      ReadClose(tokens, q, ops, Pending(e), out + Emitted(e), Level(e));
      PostOrderSplits(e);
      Reassociate(out, Emitted(e), Unwind(Pending(e)));
    }
  }

  /** A child on the left of an operator, and the operator. */
  lemma {:induction false} ReadLeftChild(tokens: seq<Group>, p: nat, e: Tree, bare: bool, op: Symbol, ops: seq<Group>,
                                         out: seq<Group>, bracketed: bool)
    requires TreeOk(e, bracketed) && At(tokens, p, Child(bare, Print(e)) + [OpToken(op)]) && Steady(ops, Priority(op))
    requires (IsInfix(op) && bare == BareLeft(op, e)) || (IsSuffix(op) && bare == BareArg(op, e))
    requires PrevOk(tokens, p)
    ensures var q := p + |Child(bare, Print(e))| + 1;
            q <= |tokens| && Read(tokens, p, Yard(ops, out)) == Read(tokens, q, Yard(ops + [OpToken(op)], out + PostOrder(e)))
    decreases e, 3
  {
    hide Read, Steady, KeepsOut, Pops, At, Priority, Info, Depth, Print, PostOrder, Emitted, Pending, TreeOk, Unwind, AtLeast, Level, Child, BareLeft, BareArg, IsInfix, IsSuffix;
    var x := Child(bare, Print(e));
    var q := p + |x|;
    AtSplit(tokens, p, x, [OpToken(op)]);
    AtOne(tokens, q, OpToken(op));
    OperatorAfter(tokens, q, op);
    if bare {
      LeftGivesWay(op, e);
      SteadyStronger(ops, Priority(op), Level(e));
    }
    ReadChild(tokens, p, e, bare, ops, out, bracketed);
    PostOrderSplits(e);
    if bare {
      ReadOperator(tokens, q, op, ops, Pending(e), out + Emitted(e));
      Reassociate(out, Emitted(e), Unwind(Pending(e)));
    } else {
      NothingAfter(ops);
      NothingAfter(out + PostOrder(e));
      UnwindNothing();
      ReadOperator(tokens, q, op, ops, [], out + PostOrder(e));
    }
  }

  lemma {:induction false} ReadInfix(tokens: seq<Group>, p: nat, op: Symbol, l: Tree, r: Tree, ops: seq<Group>, out: seq<Group>,
                                     bracketed: bool)
    requires TreeOk(Infix(op, l, r), bracketed) && At(tokens, p, Print(Infix(op, l, r))) && Steady(ops, Priority(op))
    requires Between(tokens, p, p + |Print(Infix(op, l, r))|)
    ensures Moves(tokens, p, Infix(op, l, r), ops, out)
    decreases Infix(op, l, r), 0
  {
    hide Read, Steady, KeepsOut, Pops, At, Priority, Info, Depth, Print, PostOrder, Emitted, Pending, TreeOk, Unwind, AtLeast, Level, Child, BareLeft, BareRight, IsInfix;
    var bare := BareRight(op, r);
    var left, right := Child(BareLeft(op, l), Print(l)) + [OpToken(op)], Child(bare, Print(r));
    InfixShape(op, l, r, bracketed);
    AtSplit(tokens, p, left, right);
    ReadLeftChild(tokens, p, l, BareLeft(op, l), op, ops, out, bracketed);
    var q := p + |left|;
    LastAt(tokens, p, left);
    if bare {
      RightStaysOut(op, r);
      SteadyAfter(ops, op, Level(r));
    }
    ReadChild(tokens, q, r, bare, ops + [OpToken(op)], out + PostOrder(l), bracketed);
    Reassociate(ops, [OpToken(op)], Pending(r));
    Reassociate(out, PostOrder(l), if bare then Emitted(r) else PostOrder(r));
    NothingAfter([OpToken(op)]);
  }

  lemma InfixShape(op: Symbol, l: Tree, r: Tree, bracketed: bool)
    ensures var e, bare := Infix(op, l, r), BareRight(op, r);
            && Print(e) == Child(BareLeft(op, l), Print(l)) + [OpToken(op)] + Child(bare, Print(r))
            && Pending(e) == [OpToken(op)] + (if bare then Pending(r) else [])
            && Emitted(e) == PostOrder(l) + (if bare then Emitted(r) else PostOrder(r))
            && (TreeOk(e, bracketed) ==> IsInfix(op) && TreeOk(l, bracketed) && TreeOk(r, bracketed))
  {
  }

  lemma PrefixShape(op: Symbol, a: Tree, bracketed: bool)
    ensures var e, bare := Prefix(op, a), BareArg(op, a);
            && Print(e) == [OpToken(op)] + Child(bare, Print(a))
            && Pending(e) == [OpToken(op)] + (if bare then Pending(a) else [])
            && Emitted(e) == (if bare then Emitted(a) else PostOrder(a))
            && (TreeOk(e, bracketed) ==> IsPrefix(op) && TreeOk(a, bracketed))
  {
  }

  lemma SuffixShape(op: Symbol, a: Tree, bracketed: bool)
    ensures var e := Suffix(op, a);
            && Print(e) == Child(BareArg(op, a), Print(a)) + [OpToken(op)]
            && Pending(e) == [OpToken(op)] && Emitted(e) == PostOrder(a)
            && (TreeOk(e, bracketed) ==> IsSuffix(op) && TreeOk(a, bracketed))
  {
  }

  lemma AccessShape(base: Tree, args: seq<Tree>, bracketed: bool)
    ensures var e := Access(base, args);
            && Print(e) == Child(BareBase(base), Print(base)) + ([Mark(LBracket)] + PrintArgs(args) + [Mark(RBracket)])
            && Pending(e) == [] && Emitted(e) == PostOrder(base) + [Complex(DataAccess, Arguments(args))]
            && (TreeOk(e, bracketed) ==> TreeOk(base, bracketed) && forall k :: 0 <= k < |args| ==> TreeOk(args[k], true))
  {
  }

  /** An operator may follow an operand, and an operand may follow an operator. */
  lemma OperatorAfter(tokens: seq<Group>, q: nat, op: Symbol)
    ensures q < |tokens| && tokens[q] == OpToken(op) ==> NextOk(tokens, q) && PrevOk(tokens, q + 1)
  {
  }

  lemma Reassociate(a: seq<Group>, b: seq<Group>, c: seq<Group>)
    ensures a + b + c == a + (b + c)
  {
  }

  lemma UnwindNothing()
    ensures Unwind([]) == []
  {
  }

  lemma NothingAfter(a: seq<Group>)
    ensures a + [] == a && [] + a == a
  {
  }

  lemma {:induction false} ReadPrefix(tokens: seq<Group>, p: nat, op: Symbol, a: Tree, ops: seq<Group>, out: seq<Group>, bracketed: bool)
    requires TreeOk(Prefix(op, a), bracketed) && At(tokens, p, Print(Prefix(op, a))) && Steady(ops, Priority(op))
    requires Between(tokens, p, p + |Print(Prefix(op, a))|)
    ensures Moves(tokens, p, Prefix(op, a), ops, out)
    decreases Prefix(op, a), 0
  {
    hide Read, Steady, KeepsOut, Pops, At, Priority, Info, Depth, Print, PostOrder, Emitted, Pending, TreeOk, Unwind, AtLeast, Level, Child, BareArg, IsPrefix;
    var bare := BareArg(op, a);
    PrefixShape(op, a, bracketed);
    AtSplit(tokens, p, [OpToken(op)], Child(bare, Print(a)));
    AtOne(tokens, p, OpToken(op));
    OperatorAfter(tokens, p, op);
    NothingAfter(ops);
    NothingAfter(out);
    UnwindNothing();
    ReadOperator(tokens, p, op, ops, [], out);
    if bare {
      RightStaysOut(op, a);
      SteadyAfter(ops, op, Level(a));
    }
    ReadChild(tokens, p + 1, a, bare, ops + [OpToken(op)], out, bracketed);
    Reassociate(ops, [OpToken(op)], Pending(a));
    NothingAfter([OpToken(op)]);
  }

  lemma {:induction false} ReadSuffix(tokens: seq<Group>, p: nat, op: Symbol, a: Tree, ops: seq<Group>, out: seq<Group>, bracketed: bool)
    requires TreeOk(Suffix(op, a), bracketed) && At(tokens, p, Print(Suffix(op, a))) && Steady(ops, Priority(op))
    requires Between(tokens, p, p + |Print(Suffix(op, a))|)
    ensures Moves(tokens, p, Suffix(op, a), ops, out)
    decreases Suffix(op, a), 0
  {
    hide Read, Steady, KeepsOut, Pops, At, Priority, Info, Depth, Print, PostOrder, Emitted, Pending, TreeOk, Unwind, AtLeast, Level, Child, BareArg, IsSuffix;
    SuffixShape(op, a, bracketed);
    ReadLeftChild(tokens, p, a, BareArg(op, a), op, ops, out, bracketed);
  }

  // ----- brackets -----

  lemma NothingCollected(tokens: seq<Group>, i: nat, parts: seq<Group>)
    requires 1 <= i < |tokens| && tokens[i] == Mark(RBracket)
    ensures Bracket(tokens, i, 1, [], parts) == Collected(parts, i)
  {
  }

  /** The collector's arguments are those of the tree, and it stops at the closing bracket. */
  lemma {:induction false} CollectsArgs(tokens: seq<Group>, i: nat, args: seq<Tree>, parts: seq<Group>)
    requires 1 <= i && At(tokens, i, PrintArgs(args) + [Mark(RBracket)])
    requires forall k :: 0 <= k < |args| ==> TreeOk(args[k], true)
    ensures Bracket(tokens, i, 1, [], parts) == Collected(parts + Arguments(args), i + |PrintArgs(args)|)
    decreases args, 0
  {
    hide Print, Depth, Elements, Build, At, PostOrder, Bracket;
    if args == [] {
      NothingAfter([Mark(RBracket)]);
      AtOne(tokens, i, Mark(RBracket));
      NothingAfter(parts);
      NothingCollected(tokens, i, parts);
    } else {
      var x := Print(args[0]);
      var rest := if |args| == 1 then [Mark(RBracket)] else [Mark(Comma)] + (PrintArgs(args[1..]) + [Mark(RBracket)]);
      assert PrintArgs(args) + [Mark(RBracket)] == x + rest;
      AtSplit(tokens, i, x, rest);
      PrintBalanced(args[0]);
      BalancedAtZero(x);
      CollectsBalanced(tokens, i, x, 0, [], parts);
      NothingAfter(x);
      PrintNotEmpty(args[0]);
      var q := i + |x|;
      FirstAt(tokens, q, rest);
      EndOfArgument(tokens, q, x, parts);
      BuildTree(args[0], true);
      var parts' := parts + [ArgumentOf(x)];
      Reassociate(parts, [ArgumentOf(x)], Arguments(args[1..]));
      if |args| > 1 {
        AtSplit(tokens, q, [Mark(Comma)], PrintArgs(args[1..]) + [Mark(RBracket)]);
        CollectsArgs(tokens, q + 1, args[1..], parts');
      }
    }
  }

  lemma BalancedAtZero(x: seq<Group>)
    requires Balanced(x, 0)
    ensures Depth(x, 0) == 0
  {
  }

  lemma LastAt(tokens: seq<Group>, p: nat, x: seq<Group>)
    requires At(tokens, p, x) && x != []
    ensures p + |x| <= |tokens| && tokens[p + |x| - 1] == x[|x| - 1]
  {
    assert tokens[p + |x| - 1] == x[p + |x| - 1 - p];
  }

  lemma FirstAt(tokens: seq<Group>, p: nat, x: seq<Group>)
    requires At(tokens, p, x) && x != []
    ensures p < |tokens| && tokens[p] == x[0]
  {
    assert tokens[p] == x[p - p];
  }

  /** A comma ends an argument, the closing bracket ends the last one. */
  lemma EndOfArgument(tokens: seq<Group>, q: nat, x: seq<Group>, parts: seq<Group>)
    requires 1 <= q < |tokens| && x != [] && |x| < q
    ensures tokens[q] == Mark(Comma) ==>
              Bracket(tokens, q, 1, x, parts) == Bracket(tokens, q + 1, 1, [], parts + [ArgumentOf(x)])
    ensures tokens[q] == Mark(RBracket) ==> Bracket(tokens, q, 1, x, parts) == Collected(parts + [ArgumentOf(x)], q)
  {
  }

  lemma PrintNotEmpty(e: Tree)
    requires TreeOk(e, true)
    ensures Print(e) != []
  {
  }

  lemma ReadGroup(tokens: seq<Group>, p: nat, y: Yard, kind: GroupType)
    requires p < |tokens| && Identify(tokens, p) == kind && (kind == ArrayLiteral || kind == DataAccess)
    ensures var c := Bracket(tokens, p + 1, 1, [], []);
            Read(tokens, p, y) == Read(tokens, c.index + 1, y.(out := y.out + [Complex(kind, c.parts)]))
  {
    hide Bracket, Identify;
  }

  lemma {:induction false} ReadBrackets(tokens: seq<Group>, p: nat, args: seq<Tree>, y: Yard, kind: GroupType)
    requires forall k :: 0 <= k < |args| ==> TreeOk(args[k], true)
    requires At(tokens, p, [Mark(LBracket)] + PrintArgs(args) + [Mark(RBracket)])
    requires kind == ArrayLiteral || kind == DataAccess
    requires p < |tokens| && tokens[p] == Mark(LBracket) ==> Identify(tokens, p) == kind
    ensures var q := p + |PrintArgs(args)| + 2;
            q <= |tokens| && Read(tokens, p, y) == Read(tokens, q, y.(out := y.out + [Complex(kind, Arguments(args))]))
    decreases args, 1
  {
    hide Read, At, PrintArgs, Arguments, Bracket, Identify;
    var open, rest := [Mark(LBracket)], PrintArgs(args) + [Mark(RBracket)];
    Reassociate(open, PrintArgs(args), [Mark(RBracket)]);
    AtSplit(tokens, p, open, rest);
    AtOne(tokens, p, Mark(LBracket));
    CollectsArgs(tokens, p + 1, args, []);
    NothingAfter(Arguments(args));
    ReadGroup(tokens, p, y, kind);
  }

  lemma LiteralStarts(tokens: seq<Group>, p: nat)
    requires PrevOk(tokens, p)
    ensures p < |tokens| && tokens[p] == Mark(LBracket) ==> Identify(tokens, p) == ArrayLiteral
  {
  }

  lemma AccessStarts(tokens: seq<Group>, q: nat)
    requires 0 < q <= |tokens|
    requires var t := TokenOf(tokens[q - 1]);
             t.kind != Operator && (t.kind == Delimiter ==> t.text == RBracket || t.text == RParen)
    ensures q < |tokens| && tokens[q] == Mark(LBracket) ==> Identify(tokens, q) == DataAccess
  {
  }

  /** The last token of a base is a name, a literal or a closing bracket or parenthesis: a bracket after it is an access. */
  lemma BaseEnds(base: Tree, bracketed: bool)
    requires TreeOk(base, bracketed)
    ensures var x := Child(BareBase(base), Print(base));
            && x != []
            && var t := TokenOf(x[|x| - 1]);
            t.kind != Operator && (t.kind == Delimiter ==> t.text == RBracket || t.text == RParen)
  {
    hide PrintArgs;
    if BareBase(base) {
      NothingPending(base);
      match base {
        case Leaf(_) =>
        case Named(markers, name) => assert (markers + [name])[|markers|] == name;
        case Paren(a) => LastOf([Mark(LParen)] + Print(a), Mark(RParen));
        case Access(b, args) => LastOf(Child(BareBase(b), Print(b)) + [Mark(LBracket)] + PrintArgs(args), Mark(RBracket));
        case Array(args) => LastOf([Mark(LBracket)] + PrintArgs(args), Mark(RBracket));
        case Infix(op, _, _) => LevelsAgree(op);
        case Prefix(op, _) => LevelsAgree(op);
        case Suffix(op, _) => LevelsAgree(op);
      }
    } else {
      LastOf([Mark(LParen)] + Print(base), Mark(RParen));
    }
  }

  lemma LastOf(x: seq<Group>, g: Group)
    ensures (x + [g])[|x + [g]| - 1] == g
  {
  }

  lemma BracketAfter(tokens: seq<Group>, q: nat, x: seq<Group>)
    requires At(tokens, q, x) && x != [] && x[0] == Mark(LBracket)
    ensures NextOk(tokens, q)
  {
    FirstAt(tokens, q, x);
  }

  lemma {:induction false} ReadAccess(tokens: seq<Group>, p: nat, base: Tree, args: seq<Tree>, ops: seq<Group>, out: seq<Group>,
                                      bracketed: bool)
    requires TreeOk(Access(base, args), bracketed) && At(tokens, p, Print(Access(base, args))) && Steady(ops, 13)
    requires Between(tokens, p, p + |Print(Access(base, args))|)
    ensures Moves(tokens, p, Access(base, args), ops, out)
    decreases Access(base, args), 0
  {
    hide Read, Steady, KeepsOut, Pops, At, Priority, Info, Depth, Print, PostOrder, Emitted, Pending, TreeOk, Unwind, AtLeast, Level, Child, Identify, PrintArgs, Arguments, Bracket;
    var bare := BareBase(base);
    var x, brackets := Child(bare, Print(base)), [Mark(LBracket)] + PrintArgs(args) + [Mark(RBracket)];
    AccessShape(base, args, bracketed);
    AtSplit(tokens, p, x, brackets);
    var q := p + |x|;
    BaseEnds(base, bracketed);
    LastAt(tokens, p, x);
    AccessStarts(tokens, q);
    ReadChild(tokens, p, base, bare, ops, out, bracketed);
    NothingPending(base);
    NothingAfter(ops);
    BracketAfter(tokens, q, brackets);
    ReadBrackets(tokens, q, args, Yard(ops, out + PostOrder(base)), DataAccess);
    var group := [Complex(DataAccess, Arguments(args))];
    Reassociate(out, PostOrder(base), group);
  }

  lemma NothingPending(e: Tree)
    ensures Level(e) == 13 ==> Pending(e) == [] && Emitted(e) == PostOrder(e)
  {
    if e.Infix? {
      LevelsAgree(e.op);
    } else if e.Prefix? || e.Suffix? {
      LevelsAgree(e.op);
    }
  }

  // ----- the round trip -----

  /** Building the postfix form of a printed tree yields its post-order, whatever further parentheses the tree has. */
  lemma {:induction false} BuildTree(e: Tree, bracketed: bool)
    requires TreeOk(e, bracketed)
    ensures Elements(Build(Print(e))) == PostOrder(e)
    ensures |Print(e)| > 1 ==> Build(Print(e)) == Complex(Root, PostOrder(e))
    decreases e, 4
  {
    hide Print, PostOrder, Pending, Emitted, TreeOk, Read, Level, Steady, At, PrevOk, NextOk, Unwind;
    var tokens := Print(e);
    if |tokens| == 1 {
      SingleIsLeaf(e, bracketed);
      LeafOrder(e);
    } else {
      FromTheStart(tokens, Level(e));
      ReadTree(tokens, 0, e, [], [], bracketed);
      PostOrderSplits(e);
      assert [] + Pending(e) == Pending(e) && [] + Emitted(e) == Emitted(e);
      ReadEnd(tokens, Yard(Pending(e), Emitted(e)));
    }
  }

  lemma LeafOrder(e: Tree)
    requires e.Leaf?
    ensures Print(e) == [e.operand] && PostOrder(e) == [e.operand]
    ensures TreeOk(e, true) || TreeOk(e, false) ==> Elements(e.operand) == [e.operand]
  {
  }

  lemma FromTheStart(tokens: seq<Group>, level: int)
    ensures At(tokens, 0, tokens) && Between(tokens, 0, |tokens|) && Steady([], level)
  {
  }

  lemma SingleIsLeaf(e: Tree, bracketed: bool)
    requires TreeOk(e, bracketed) && |Print(e)| == 1
    ensures e.Leaf?
  {
    match e
    case Infix(op, l, r) => LongChild(BareLeft(op, l), Print(l));
    case Prefix(op, a) => PrintLength(a, bracketed);
    case Suffix(op, a) => PrintLength(a, bracketed);
    case Access(base, _) => PrintLength(base, bracketed);
    case Paren(a) => PrintLength(a, bracketed);
    case _ =>
  }

  lemma LongChild(bare: bool, x: seq<Group>)
    ensures |Child(bare, x)| >= |x|
  {
  }

  lemma PrintLength(e: Tree, bracketed: bool)
    requires TreeOk(e, bracketed)
    ensures |Print(e)| >= 1
  {
  }

  // ----- where the builder and the reader's expectation part -----

  predicate IsPlainOperand(g: Group) {
    g.Simple? && (g.token.kind == Identifier || g.token.kind == Literal) && PlainText(g)
  }

  lemma OperandMoves(tokens: seq<Group>, p: nat, ops: seq<Group>, out: seq<Group>, out': seq<Group>)
    requires p < |tokens| && IsPlainOperand(tokens[p]) && NextOk(tokens, p + 1) && out' == out + [tokens[p]]
    ensures Read(tokens, p, Yard(ops, out)) == Read(tokens, p + 1, Yard(ops, out'))
  {
    hide Read;
    ReadSimple(tokens, p, Yard(ops, out));
  }

  lemma KeptOut(top: Symbol, op: Symbol)
    requires !Pops(top, op)
    ensures KeepsOut(top, Priority(op))
  {
    forall o: Symbol | Priority(o) >= Priority(op)
      ensures !Pops(top, o)
    {
      LevelsAgree(top);
      LevelsAgree(op);
      LevelsAgree(o);
    }
  }

  lemma FirstOperator(tokens: seq<Group>, p: nat, op: Symbol, out: seq<Group>)
    requires p < |tokens| && tokens[p] == OpToken(op)
    ensures Read(tokens, p, Yard([], out)) == Read(tokens, p + 1, Yard([OpToken(op)], out))
  {
    hide Read;
    NothingAfter(out);
    NothingAfter([OpToken(op)]);
    UnwindNothing();
    var none: seq<Group> := [];
    assert none + none == none;
    ReadOperator(tokens, p, op, none, none, out);
  }

  /** The second operator sends the first one out, or stays above it. */
  lemma SecondOperator(tokens: seq<Group>, p: nat, top: Symbol, op: Symbol, out: seq<Group>)
    requires p < |tokens| && tokens[p] == OpToken(op)
    ensures Read(tokens, p, Yard([OpToken(top)], out)) == Read(tokens, p + 1,
              if Pops(top, op) then Yard([OpToken(op)], out + [OpToken(top)]) else Yard([OpToken(top), OpToken(op)], out))
  {
    hide Read, Pops;
    var x, y := [OpToken(top)], [OpToken(op)];
    NothingAfter(x);
    NothingAfter(y);
    NothingAfter(out);
    UnwindNothing();
    if Pops(top, op) {
      UnwindTwo(OpToken(top), OpToken(op));
      ReadOperator(tokens, p, op, [], x, out);
    } else {
      KeptOut(top, op);
      assert x + y == [OpToken(top), OpToken(op)];
      ReadOperator(tokens, p, op, x, [], out);
    }
  }

  lemma UnwindTwo(a: Group, b: Group)
    ensures Unwind([a, b]) == [b, a] && Unwind([a]) == [a]
  {
    assert [a, b][..1] == [a] && [a][..0] == [];
    assert Unwind([a]) == [a] + Unwind([]);
  }

  lemma ReadEnd(tokens: seq<Group>, y: Yard)
    ensures Read(tokens, |tokens|, y) == y.out + Unwind(y.ops)
  {
  }

  /** Two infix operators in a row: the first binds its operands exactly when it gives way to the second. */
  lemma PriorityDecides(a: Group, first: Symbol, b: Group, second: Symbol, c: Group)
    requires IsPlainOperand(a) && IsPlainOperand(b) && IsPlainOperand(c) && IsInfix(first) && IsInfix(second)
    ensures Build([a, OpToken(first), b, OpToken(second), c]) == Complex(Root,
              if Pops(first, second) then [a, b, OpToken(first), c, OpToken(second)]
              else [a, b, c, OpToken(second), OpToken(first)])
  {
    hide Read, Pops, Unwind;
    var x, y := OpToken(first), OpToken(second);
    var tokens := [a, x, b, y, c];
    OperandMoves(tokens, 0, [], [], [a]);
    FirstOperator(tokens, 1, first, [a]);
    OperandMoves(tokens, 2, [x], [a], [a, b]);
    SecondOperator(tokens, 3, first, second, [a, b]);
    UnwindTwo(x, y);
    UnwindTwo(y, x);
    if Pops(first, second) {
      assert [a, b] + [x] == [a, b, x];
      OperandMoves(tokens, 4, [y], [a, b, x], [a, b, x, c]);
      ReadEnd(tokens, Yard([y], [a, b, x, c]));
      assert [a, b, x, c] + [y] == [a, b, x, c, y];
    } else {
      OperandMoves(tokens, 4, [x, y], [a, b], [a, b, c]);
      ReadEnd(tokens, Yard([x, y], [a, b, c]));
      assert [a, b, c] + [y, x] == [a, b, c, y, x];
    }
  }

  lemma SuffixesTie(first: Symbol, second: Symbol)
    requires IsSuffix(first) && IsSuffix(second)
    ensures !Pops(first, second)
  {
  }

  lemma SuffixOrder(e: Tree, op: Symbol)
    ensures PostOrder(Suffix(op, e)) == PostOrder(e) + [OpToken(op)]
  {
  }
}
