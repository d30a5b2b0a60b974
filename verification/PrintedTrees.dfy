/** Expression trees, how they are printed with the parentheses they need, and their post-order. */
module PrintedTrees {
  import opened Tokens
  import opened PostfixSpec
  import Postfix

  datatype Tree =
    | Leaf(operand: Group)
    | Named(markers: seq<Group>, name: Group)
    | Infix(op: Symbol, left: Tree, right: Tree)
    | Prefix(op: Symbol, arg: Tree)
    | Suffix(op: Symbol, arg: Tree)
    | Access(base: Tree, args: seq<Tree>)
    | Array(args: seq<Tree>)
    | Paren(inner: Tree)

  predicate IsInfix(op: Symbol) {
    Info(op).kind != UnaryOperator && Info(op).kind != MetaOperator
  }

  predicate IsSuffix(op: Symbol) {
    op == UIncrement || op == UDecrement
  }

  predicate IsPrefix(op: Symbol) {
    Info(op).kind == UnaryOperator && !IsSuffix(op)
  }

  predicate IsOperand(g: Group) {
    NamesSomething(g) || TokenOf(g).kind == Literal
  }

  /** Inside brackets a literal must not have the string of a bracket or a comma: the collector compares strings only. */
  predicate PlainText(g: Group) {
    TextOf(g) != LBracket && TextOf(g) != RBracket && TextOf(g) != Comma
  }

  predicate TreeOk(e: Tree, bracketed: bool)
    decreases e
  {
    match e
    case Leaf(g) => IsOperand(g) && (bracketed ==> PlainText(g))
    case Named(markers, name) =>
      && markers != [] && NamesSomething(name) && (bracketed ==> PlainText(name))
      && forall k :: 0 <= k < |markers| ==> TokenOf(markers[k]).kind == TypeMarker && (bracketed ==> PlainText(markers[k]))
    case Infix(op, l, r) => IsInfix(op) && TreeOk(l, bracketed) && TreeOk(r, bracketed)
    case Prefix(op, a) => IsPrefix(op) && TreeOk(a, bracketed)
    case Suffix(op, a) => IsSuffix(op) && TreeOk(a, bracketed)
    case Access(base, args) => TreeOk(base, bracketed) && forall k :: 0 <= k < |args| ==> TreeOk(args[k], true)
    case Array(args) => forall k :: 0 <= k < |args| ==> TreeOk(args[k], true)
    case Paren(a) => TreeOk(a, bracketed)
  }

  // ----- printing -----

  function OpToken(op: Symbol): Group {
    Simple(Token(Operator, Sym(op)))
  }

  function Mark(text: Text): Group {
    Simple(Token(Delimiter, text))
  }

  /** How tightly a tree holds together without parentheses. */
  function Level(e: Tree): int {
    match e
    case Infix(op, _, _) => Priority(op)
    case Prefix(op, _) => Priority(op)
    case Suffix(op, _) => Priority(op)
    case _ => 13
  }

  predicate BareLeft(op: Symbol, l: Tree) {
    if Info(op).assoc == LeftRight then Level(l) >= Priority(op) else Level(l) > Priority(op)
  }

  predicate BareRight(op: Symbol, r: Tree) {
    if Info(op).assoc == LeftRight then Level(r) > Priority(op) else Level(r) >= Priority(op)
  }

  predicate BareArg(op: Symbol, a: Tree) {
    if IsSuffix(op) then Level(a) > Priority(op) else Level(a) >= Priority(op)
  }

  predicate BareBase(base: Tree) {
    Level(base) == 13
  }

  function Child(bare: bool, printed: seq<Group>): seq<Group> {
    if bare then printed else [Mark(LParen)] + printed + [Mark(RParen)]
  }

  /** Parentheses only where priority and associativity ask for them, besides those the tree has itself. */
  function Print(e: Tree): (s: seq<Group>)
    ensures e.Named? || |s| > 0
    decreases e
  {
    match e
    case Leaf(g) => [g]
    case Named(markers, name) => markers + [name]
    case Infix(op, l, r) => Child(BareLeft(op, l), Print(l)) + [OpToken(op)] + Child(BareRight(op, r), Print(r))
    case Prefix(op, a) => [OpToken(op)] + Child(BareArg(op, a), Print(a))
    case Suffix(op, a) => Child(BareArg(op, a), Print(a)) + [OpToken(op)]
    case Access(base, args) => Child(BareBase(base), Print(base)) + [Mark(LBracket)] + PrintArgs(args) + [Mark(RBracket)]
    case Array(args) => [Mark(LBracket)] + PrintArgs(args) + [Mark(RBracket)]
    case Paren(a) => [Mark(LParen)] + Print(a) + [Mark(RParen)]
  }

  function PrintArgs(args: seq<Tree>): seq<Group>
    decreases args
  {
    if args == [] then []
    else if |args| == 1 then Print(args[0])
    else Print(args[0]) + [Mark(Comma)] + PrintArgs(args[1..])
  }

  // ----- post-order -----

  function PostOrder(e: Tree): seq<Group>
    decreases e
  {
    match e
    case Leaf(g) => [g]
    case Named(markers, name) => [Complex(TypeName, markers + [name])]
    case Infix(op, l, r) => PostOrder(l) + PostOrder(r) + [OpToken(op)]
    case Prefix(op, a) => PostOrder(a) + [OpToken(op)]
    case Suffix(op, a) => PostOrder(a) + [OpToken(op)]
    case Access(base, args) => PostOrder(base) + [Complex(DataAccess, Arguments(args))]
    case Array(args) => [Complex(ArrayLiteral, Arguments(args))]
    case Paren(a) => PostOrder(a)
  }

  function Arguments(args: seq<Tree>): seq<Group>
    decreases args
  {
    if args == [] then [] else [Complex(Argument, PostOrder(args[0]))] + Arguments(args[1..])
  }

  // ----- what an unparenthesised tree leaves on the stack -----

  /** The operators a tree leaves waiting: those on its right edge. */
  function Pending(e: Tree): seq<Group> {
    match e
    case Infix(op, _, r) => [OpToken(op)] + if BareRight(op, r) then Pending(r) else []
    case Prefix(op, a) => [OpToken(op)] + if BareArg(op, a) then Pending(a) else []
    case Suffix(op, _) => [OpToken(op)]
    case _ => []
  }

  /** What it has put out before those. */
  function Emitted(e: Tree): seq<Group> {
    match e
    case Infix(op, l, r) => PostOrder(l) + if BareRight(op, r) then Emitted(r) else PostOrder(r)
    case Prefix(op, a) => if BareArg(op, a) then Emitted(a) else PostOrder(a)
    case Suffix(_, a) => PostOrder(a)
    case _ => PostOrder(e)
  }

  lemma {:induction false} PostOrderSplits(e: Tree)
    ensures PostOrder(e) == Emitted(e) + Unwind(Pending(e))
  {
    match e
    case Infix(op, l, r) =>
      var rest := if BareRight(op, r) then Pending(r) else [];
      if BareRight(op, r) {
        PostOrderSplits(r);
      }
      Postfix.UnwindCons(OpToken(op), rest);
    case Prefix(op, a) =>
      var rest := if BareArg(op, a) then Pending(a) else [];
      if BareArg(op, a) {
        PostOrderSplits(a);
      }
      Postfix.UnwindCons(OpToken(op), rest);
    case Suffix(op, a) => Postfix.UnwindCons(OpToken(op), []);
    case _ => assert PostOrder(e) + [] == PostOrder(e);
  }

  /** The stack holds operators only, none weaker than the level. */
  predicate AtLeast(ops: seq<Group>, level: int) {
    forall k :: 0 <= k < |ops| ==> TextOf(ops[k]).Sym? && Priority(TextOf(ops[k]).op) >= level
  }

  lemma AtLeastCons(op: Symbol, ops: seq<Group>, level: int)
    requires AtLeast(ops, level) && Priority(op) >= level
    ensures AtLeast([OpToken(op)] + ops, level)
  {
    var all := [OpToken(op)] + ops;
    forall k | 0 <= k < |all|
      ensures TextOf(all[k]).Sym? && Priority(TextOf(all[k]).op) >= level
    {
      if k > 0 {
        assert all[k] == ops[k - 1];
      }
    }
  }

  lemma AtLeastWeaken(ops: seq<Group>, level: int, level': int)
    requires AtLeast(ops, level) && level' <= level
    ensures AtLeast(ops, level')
  {
  }

  lemma {:induction false} PendingStrong(e: Tree)
    ensures AtLeast(Pending(e), Level(e))
  {
    match e
    case Infix(op, l, r) =>
      if BareRight(op, r) {
        PendingStrong(r);
        AtLeastWeaken(Pending(r), Level(r), Priority(op));
        AtLeastCons(op, Pending(r), Priority(op));
      } else {
        AtLeastCons(op, [], Priority(op));
      }
    case Prefix(op, a) =>
      if BareArg(op, a) {
        PendingStrong(a);
        AtLeastWeaken(Pending(a), Level(a), Priority(op));
        AtLeastCons(op, Pending(a), Priority(op));
      } else {
        AtLeastCons(op, [], Priority(op));
      }
    case Suffix(op, _) => AtLeastCons(op, [], Priority(op));
    case _ =>
  }

  /** An operator that stays below every arriving one of at least this level. */
  ghost predicate KeepsOut(top: Symbol, level: int) {
    forall op :: Priority(op) >= level ==> !Pops(top, op)
  }

  /** No operator of at least this level makes the top of the stack give way. */
  ghost predicate Steady(ops: seq<Group>, level: int) {
    ops == [] || TextOf(ops[|ops| - 1]) == LParen
    || (TextOf(ops[|ops| - 1]).Sym? && KeepsOut(TextOf(ops[|ops| - 1]).op, level))
  }

  lemma SteadyStronger(ops: seq<Group>, level: int, level': int)
    requires Steady(ops, level) && level <= level'
    ensures Steady(ops, level')
  {
  }

  /** On a steady stack the operators above it that give way are exactly the pending ones. */
  lemma {:induction false} PendingLeaves(ops: seq<Group>, pending: seq<Group>, arriving: Symbol)
    requires Steady(ops, Priority(arriving))
    requires forall k :: 0 <= k < |pending| ==> TextOf(pending[k]).Sym? && Pops(TextOf(pending[k]).op, arriving)
    ensures Waiting(ops + pending, arriving) == ops && Moved(ops + pending, ops) == Unwind(pending)
    decreases |pending|
  {
    hide Pops, Priority, Info;
    var all := ops + pending;
    assert all[|ops|..] == pending;
    if pending == [] {
      assert all == ops;
    } else {
      var n := |pending| - 1;
      assert all[..|all| - 1] == ops + pending[..n] && all[|all| - 1] == pending[n];
      PendingLeaves(ops, pending[..n], arriving);
    }
  }

  lemma {:induction false} PendingClosed(ops: seq<Group>, pending: seq<Group>, level: int)
    requires ops != [] && TextOf(ops[|ops| - 1]) == LParen && AtLeast(pending, level)
    ensures UpToParen(ops + pending) == ops && Moved(ops + pending, ops) == Unwind(pending)
    decreases |pending|
  {
    var all := ops + pending;
    assert all[|ops|..] == pending;
    if pending == [] {
      assert all == ops;
    } else {
      var n := |pending| - 1;
      assert all[..|all| - 1] == ops + pending[..n] && all[|all| - 1] == pending[n];
      PendingClosed(ops, pending[..n], level);
    }
  }

  // ----- tokens inside tokens -----

  ghost predicate At(tokens: seq<Group>, p: nat, x: seq<Group>) {
    p + |x| <= |tokens| && forall k :: p <= k < p + |x| ==> tokens[k] == x[k - p]
  }

  lemma AtSplit(tokens: seq<Group>, p: nat, a: seq<Group>, b: seq<Group>)
    requires At(tokens, p, a + b)
    ensures At(tokens, p, a) && At(tokens, p + |a|, b)
  {
    forall k | p <= k < p + |a|
      ensures tokens[k] == a[k - p]
    {
      assert (a + b)[k - p] == a[k - p];
    }
    forall k | p + |a| <= k < p + |a| + |b|
      ensures tokens[k] == b[k - (p + |a|)]
    {
      assert (a + b)[k - p] == b[k - p - |a|];
    }
  }

  lemma AtOne(tokens: seq<Group>, p: nat, g: Group)
    requires At(tokens, p, [g])
    ensures p < |tokens| && tokens[p] == g
  {
    assert [g][p - p] == g;
  }

  /** What follows an operand is not an open parenthesis, which would make a call of a name. */
  predicate NextOk(tokens: seq<Group>, q: nat) {
    q < |tokens| ==> !IsDelimiter(TokenOf(tokens[q]), LParen)
  }

  /** A bracket that starts an operand starts a literal: what precedes it is an operator or an opening. */
  predicate PrevOk(tokens: seq<Group>, p: nat) {
    0 < p < |tokens| && IsDelimiter(TokenOf(tokens[p]), LBracket) ==>
      var t := TokenOf(tokens[p - 1]);
      t.kind == Operator || (t.kind == Delimiter && t.text in {LParen, LBracket, Comma})
  }

  // ----- brackets inside bracketed arguments -----

  /** The bracket depth after some tokens, when no comma or closing bracket stands at depth 0; -1 otherwise. */
  function Depth(x: seq<Group>, depth: nat): int
    decreases |x|
  {
    if x == [] then depth
    else
      var text, rest := TextOf(x[0]), x[1..];
      if text == LBracket then Depth(rest, depth + 1)
      else if text == RBracket then if depth == 0 then -1 else Depth(rest, depth - 1)
      else if text == Comma && depth == 0 then -1
      else Depth(rest, depth)
  }

  /** Brackets are balanced, from any depth. */
  ghost predicate Balanced(x: seq<Group>, least: nat) {
    forall d: nat :: d >= least ==> Depth(x, d) == d
  }

  lemma {:induction false} DepthAppend(a: seq<Group>, b: seq<Group>, d: nat)
    requires Depth(a, d) >= 0
    ensures Depth(a + b, d) == Depth(b, Depth(a, d))
    decreases |a|
  {
    if a == [] {
      assert a + b == b;
    } else {
      assert (a + b)[0] == a[0] && (a + b)[1..] == a[1..] + b;
      var text := TextOf(a[0]);
      DepthAppend(a[1..], b, if text == LBracket then d + 1 else if text == RBracket then d - 1 else d);
    }
  }

  lemma BalancedAppend(a: seq<Group>, b: seq<Group>, least: nat)
    requires Balanced(a, least) && Balanced(b, least)
    ensures Balanced(a + b, least)
  {
    forall d: nat | d >= least
      ensures Depth(a + b, d) == d
    {
      DepthAppend(a, b, d);
    }
  }

  lemma BalancedOne(g: Group, least: nat)
    requires TextOf(g) != LBracket && TextOf(g) != RBracket && (TextOf(g) == Comma ==> least > 0)
    ensures Balanced([g], least)
  {
    forall d: nat | d >= least
      ensures Depth([g], d) == d
    {
      assert [g][1..] == [];
    }
  }

  lemma BalancedBrackets(x: seq<Group>)
    requires Balanced(x, 1)
    ensures Balanced([Mark(LBracket)] + x + [Mark(RBracket)], 0)
  {
    forall d: nat
      ensures Depth([Mark(LBracket)] + x + [Mark(RBracket)], d) == d
    {
      var open, close := [Mark(LBracket)], [Mark(RBracket)];
      assert open[1..] == [] && close[1..] == [];
      DepthAppend(open, x, d);
      DepthAppend(open + x, close, d);
    }
  }

  lemma BalancedChild(bare: bool, x: seq<Group>)
    requires Balanced(x, 0)
    ensures Balanced(Child(bare, x), 0)
  {
    BalancedOne(Mark(LParen), 0);
    BalancedOne(Mark(RParen), 0);
    BalancedAppend([Mark(LParen)], x, 0);
    BalancedAppend([Mark(LParen)] + x, [Mark(RParen)], 0);
  }

  lemma {:induction false} BalancedMarkers(x: seq<Group>)
    requires forall k :: 0 <= k < |x| ==> PlainText(x[k])
    ensures Balanced(x, 0)
    decreases |x|
  {
    if x != [] {
      BalancedOne(x[0], 0);
      BalancedMarkers(x[1..]);
      BalancedAppend([x[0]], x[1..], 0);
      assert [x[0]] + x[1..] == x;
    }
  }

  lemma BalancedWeaken(x: seq<Group>)
    requires Balanced(x, 0)
    ensures Balanced(x, 1)
  {
  }

  lemma {:induction false} PrintBalanced(e: Tree)
    requires TreeOk(e, true)
    ensures Balanced(Print(e), 0)
    decreases e, 0
  {
    match e
    case Leaf(g) => BalancedOne(g, 0);
    case Named(markers, name) =>
      BalancedMarkers(markers);
      BalancedOne(name, 0);
      BalancedAppend(markers, [name], 0);
    case Infix(op, l, r) =>
      PrintBalanced(l);
      PrintBalanced(r);
      BalancedChild(BareLeft(op, l), Print(l));
      BalancedChild(BareRight(op, r), Print(r));
      BalancedOne(OpToken(op), 0);
      BalancedAppend(Child(BareLeft(op, l), Print(l)), [OpToken(op)], 0);
      BalancedAppend(Child(BareLeft(op, l), Print(l)) + [OpToken(op)], Child(BareRight(op, r), Print(r)), 0);
    case Prefix(op, a) =>
      PrintBalanced(a);
      BalancedChild(BareArg(op, a), Print(a));
      BalancedOne(OpToken(op), 0);
      BalancedAppend([OpToken(op)], Child(BareArg(op, a), Print(a)), 0);
    case Suffix(op, a) =>
      PrintBalanced(a);
      BalancedChild(BareArg(op, a), Print(a));
      BalancedOne(OpToken(op), 0);
      BalancedAppend(Child(BareArg(op, a), Print(a)), [OpToken(op)], 0);
    case Access(base, args) =>
      PrintBalanced(base);
      BalancedChild(BareBase(base), Print(base));
      ArgsBalanced(args);
      BalancedBrackets(PrintArgs(args));
      var brackets := [Mark(LBracket)] + PrintArgs(args) + [Mark(RBracket)];
      BalancedAppend(Child(BareBase(base), Print(base)), brackets, 0);
      assert Print(e) == Child(BareBase(base), Print(base)) + brackets;
    case Array(args) =>
      ArgsBalanced(args);
      BalancedBrackets(PrintArgs(args));
    case Paren(a) =>
      PrintBalanced(a);
      BalancedChild(false, Print(a));
  }

  lemma {:induction false} ArgsBalanced(args: seq<Tree>)
    requires forall k :: 0 <= k < |args| ==> TreeOk(args[k], true)
    ensures Balanced(PrintArgs(args), 1)
    decreases args, 0
  {
    if args != [] {
      PrintBalanced(args[0]);
      BalancedWeaken(Print(args[0]));
      if |args| > 1 {
        ArgsBalanced(args[1..]);
        BalancedOne(Mark(Comma), 1);
        BalancedAppend(Print(args[0]), [Mark(Comma)], 1);
        BalancedAppend(Print(args[0]) + [Mark(Comma)], PrintArgs(args[1..]), 1);
      }
    }
  }

  /** The depth of brackets after a token. */
  function Deeper(text: Text, d: int): int {
    if text == LBracket then d + 1 else if text == RBracket then d - 1 else d
  }

  /** A first token that keeps balanced tokens balanced. */
  lemma DepthTakes(x: seq<Group>, d: nat)
    requires x != [] && Depth(x, d) == 0
    ensures Deeper(TextOf(x[0]), d) >= 0 && Depth(x[1..], Deeper(TextOf(x[0]), d)) == 0 && (TextOf(x[0]) == Comma ==> d > 0)
  {
  }

  lemma BracketTakes(tokens: seq<Group>, i: nat, d: nat, args: seq<Group>, parts: seq<Group>)
    requires 1 <= i < |tokens| && |args| < i && Deeper(TextOf(tokens[i]), d) >= 0 && (TextOf(tokens[i]) == Comma ==> d > 0)
    ensures Bracket(tokens, i, d + 1, args, parts)
         == Bracket(tokens, i + 1, Deeper(TextOf(tokens[i]), d) + 1, args + [tokens[i]], parts)
  {
  }

  /** The collector takes balanced tokens as they are. */
  lemma {:induction false} CollectsBalanced(tokens: seq<Group>, i: nat, x: seq<Group>, d: nat, args: seq<Group>, parts: seq<Group>)
    requires 1 <= i && |args| < i && At(tokens, i, x) && d >= 0 && Depth(x, d) == 0
    ensures i + |x| <= |tokens| && |args + x| < i + |x|
    ensures Bracket(tokens, i, d + 1, args, parts) == Bracket(tokens, i + |x|, 1, args + x, parts)
    decreases |x|
  {
    hide Bracket, Deeper;
    if x == [] {
      assert args + x == args;
    } else {
      hide Depth;
      assert tokens[i] == x[i - i];
      AtSplit(tokens, i, [x[0]], x[1..]);
      assert [x[0]] + x[1..] == x;
      DepthTakes(x, d);
      BracketTakes(tokens, i, d, args, parts);
      CollectsBalanced(tokens, i + 1, x[1..], Deeper(TextOf(x[0]), d), args + [x[0]], parts);
      assert args + [x[0]] + x[1..] == args + x;
    }
  }
}
