/** The words new and to, operators written as keywords, and what a bracket starts: the postfix forms and trees that they give. */
module WordOperators {
  import opened ByteCode
  import opened Tokens
  import opened PostfixSpec
  import opened PrintedTrees
  import opened SyntaxTrees
  import OperatorOrder
  import R = PostfixRoundTrip

  function Word(op: Symbol): Group {
    Simple(Token(Keyword, Sym(op)))
  }

  // ----- reading -----

  lemma WordMoves(tokens: seq<Group>, p: nat, op: Symbol, y: Yard, y': Yard)
    requires p < |tokens| && tokens[p] == Word(op) && y' == Shunt(y, Word(op))
    ensures Read(tokens, p, y) == Read(tokens, p + 1, y')
  {
    hide Read, Shunt;
    R.ReadSimple(tokens, p, y);
  }

  lemma SymbolMoves(tokens: seq<Group>, p: nat, op: Symbol, y: Yard, y': Yard)
    requires p < |tokens| && tokens[p] == OpToken(op) && y' == Shunt(y, OpToken(op))
    ensures Read(tokens, p, y) == Read(tokens, p + 1, y')
  {
    hide Read, Shunt;
    R.ReadSimple(tokens, p, y);
  }

  /** An operator arriving above one other, whatever kind of token they are. */
  lemma Arrives(back: Group, op: Group, out: seq<Group>)
    requires IsOperator(back) && IsOperator(op)
    ensures Shunt(Yard([], out), op) == Yard([op], out)
    ensures Shunt(Yard([back], out), op)
         == if Pops(TextOf(back).op, TextOf(op).op) then Yard([op], out + [back]) else Yard([back, op], out)
  {
    hide Pops;
    R.UnwindTwo(back, op);
    var none: seq<Group> := [];
    assert Waiting(none, TextOf(op).op) == none && Unwind(none) == none;
    assert [back][..0] == none;
  }

  lemma ToIsTighter(op: Symbol)
    requires OperatorOrder.Class(op).Some? && OperatorOrder.Class(op).value < 10
    ensures !Pops(op, To) && Pops(To, op)
  {
    OperatorOrder.ClassOf(op);
  }

  /** a to b: the operands, then the word. */
  lemma ToOrder(a: Group, b: Group)
    requires R.IsPlainOperand(a) && R.IsPlainOperand(b)
    ensures Build([a, Word(To), b]) == Complex(Root, [a, b, Word(To)])
  {
    hide Read, Shunt, R.IsPlainOperand;
    var t, tokens := Word(To), [a, Word(To), b];
    Arrives(t, t, [a]);
    R.OperandMoves(tokens, 0, [], [], [a]);
    WordMoves(tokens, 1, To, Yard([], [a]), Yard([t], [a]));
    R.OperandMoves(tokens, 2, [t], [a], [a, b]);
    R.ReadEnd(tokens, Yard([t], [a, b]));
    R.UnwindTwo(t, t);
    assert [a, b] + [t] == [a, b, t];
  }

  lemma NewOrder(b: Group)
    requires R.IsPlainOperand(b)
    ensures Build([Word(New), b]) == Complex(Root, [b, Word(New)])
  {
    hide Read, Shunt, R.IsPlainOperand;
    var t, tokens := Word(New), [Word(New), b];
    Arrives(t, t, []);
    WordMoves(tokens, 0, New, Yard([], []), Yard([t], []));
    R.OperandMoves(tokens, 1, [t], [], [b]);
    R.ReadEnd(tokens, Yard([t], [b]));
    R.UnwindTwo(t, t);
    assert [b] + [t] == [b, t];
  }

  // ----- trees -----

  lemma OneNode(parts: seq<Group>, node: Node)
    requires BuildNodes(parts, []) == Built([node])
    ensures BuildTreeOf(Complex(Root, parts)) == Built(Composed(Grouped(Root), [node]))
  {
  }

  lemma OperandStacked(g: Group, stack: seq<Node>)
    requires R.IsPlainOperand(g)
    ensures g.Simple? && Stacked(stack, g.token) == Built(stack + [Atom(g.token)])
  {
  }

  /** a to b is a type cast of a, with the word between what is cast and its type. */
  lemma ToBuilt(a: Group, b: Group)
    requires R.IsPlainOperand(a) && R.IsPlainOperand(b)
    ensures BuildTreeOf(Build([a, Word(To), b]))
         == Built(Composed(Grouped(Root), [Composed(TypeCast, [Atom(a.token), Atom(Word(To).token), Atom(b.token)])]))
  {
    hide Build, R.IsPlainOperand;
    ToOrder(a, b);
    OperandStacked(a, []);
    OperandStacked(b, [Atom(a.token)]);
    var x, y, t := Atom(a.token), Atom(b.token), Word(To);
    var parts := [a, b, t];
    assert parts[1..] == [b, t] && [b, t][1..] == [t] && [t][1..] == [];
    assert [] + [x] == [x] && [x] + [y] == [x, y];
    var node := Composed(TypeCast, [x, Atom(t.token), y]);
    assert Stacked([x, y], t.token) == Built([node]) by { assert [x, y][..0] + [node] == [node]; }
    assert BuildNodes([t], [x, y]) == BuildNodes([], [node]);
    assert BuildNodes([b, t], [x]) == BuildNodes([t], [x, y]);
    assert BuildNodes(parts, []) == BuildNodes([b, t], [x]);
    OneNode(parts, node);
  }

  /** new b is the creation of a b, with the word in front. */
  lemma NewBuilt(b: Group)
    requires R.IsPlainOperand(b)
    ensures BuildTreeOf(Build([Word(New), b]))
         == Built(Composed(Grouped(Root), [Composed(NewExpression, [Atom(Word(New).token), Atom(b.token)])]))
  {
    hide Build, R.IsPlainOperand;
    NewOrder(b);
    OperandStacked(b, []);
    var y, t := Atom(b.token), Word(New);
    var parts := [b, t];
    assert parts[1..] == [t] && [t][1..] == [];
    assert [] + [y] == [y];
    var node := Composed(NewExpression, [Atom(t.token), y]);
    assert Stacked([y], t.token) == Built([node]) by { assert [y][..0] + [node] == [node]; }
    assert BuildNodes([t], [y]) == BuildNodes([], [node]);
    assert BuildNodes(parts, []) == BuildNodes([t], [y]);
    OneNode(parts, node);
  }

  /** The word to binds tighter than every operator but member access. */
  lemma ToThenInfix(a: Group, b: Group, op: Symbol, c: Group)
    requires R.IsPlainOperand(a) && R.IsPlainOperand(b) && R.IsPlainOperand(c)
    requires OperatorOrder.Class(op).Some? && OperatorOrder.Class(op).value < 10
    ensures Build([a, Word(To), b, OpToken(op), c]) == Complex(Root, [a, b, Word(To), c, OpToken(op)])
    ensures Build([a, OpToken(op), b, Word(To), c]) == Complex(Root, [a, b, c, Word(To), OpToken(op)])
  {
    hide Build, R.IsPlainOperand, Pops, OperatorOrder.Class;
    ToIsTighter(op);
    ToFirst(a, b, op, c);
    ToSecond(a, b, op, c);
  }

  lemma ToFirst(a: Group, b: Group, op: Symbol, c: Group)
    requires R.IsPlainOperand(a) && R.IsPlainOperand(b) && R.IsPlainOperand(c) && Pops(To, op)
    ensures Build([a, Word(To), b, OpToken(op), c]) == Complex(Root, [a, b, Word(To), c, OpToken(op)])
  {
    hide Read, Shunt, R.IsPlainOperand, Pops;
    var t, o := Word(To), OpToken(op);
    var tokens := [a, t, b, o, c];
    R.OperandMoves(tokens, 0, [], [], [a]);
    Arrives(t, t, [a]);
    WordMoves(tokens, 1, To, Yard([], [a]), Yard([t], [a]));
    R.OperandMoves(tokens, 2, [t], [a], [a, b]);
    Arrives(t, o, [a, b]);
    assert [a, b] + [t] == [a, b, t];
    SymbolMoves(tokens, 3, op, Yard([t], [a, b]), Yard([o], [a, b, t]));
    R.OperandMoves(tokens, 4, [o], [a, b, t], [a, b, t, c]);
    R.ReadEnd(tokens, Yard([o], [a, b, t, c]));
    R.UnwindTwo(o, o);
    assert [a, b, t, c] + [o] == [a, b, t, c, o];
  }

  lemma ToSecond(a: Group, b: Group, op: Symbol, c: Group)
    requires R.IsPlainOperand(a) && R.IsPlainOperand(b) && R.IsPlainOperand(c) && !Pops(op, To)
    ensures Build([a, OpToken(op), b, Word(To), c]) == Complex(Root, [a, b, c, Word(To), OpToken(op)])
  {
    hide Read, Shunt, R.IsPlainOperand, Pops;
    var t, o := Word(To), OpToken(op);
    var tokens := [a, o, b, t, c];
    R.OperandMoves(tokens, 0, [], [], [a]);
    Arrives(o, o, [a]);
    SymbolMoves(tokens, 1, op, Yard([], [a]), Yard([o], [a]));
    R.OperandMoves(tokens, 2, [o], [a], [a, b]);
    Arrives(o, t, [a, b]);
    WordMoves(tokens, 3, To, Yard([o], [a, b]), Yard([o, t], [a, b]));
    R.OperandMoves(tokens, 4, [o, t], [a, b], [a, b, c]);
    R.ReadEnd(tokens, Yard([o, t], [a, b, c]));
    R.UnwindTwo(o, t);
    assert [a, b, c] + [t, o] == [a, b, c, t, o];
  }

  // ----- brackets -----

  /** A bracket indexes what ends before it; behind anything else it opens an array. */
  predicate Ends(before: Group) {
    before.Simple? && (R.IsPlainOperand(before) || (before.token.kind == Delimiter && before.token.text in {RBracket, RParen, RBrace}))
  }

  predicate Starts(before: Group) {
    before.Simple? && ((IsOperator(before) && before.token.kind == Operator) || before == Mark(LParen) || before == Mark(Comma))
  }

  /** The one argument of a bracket that is closed behind it. */
  lemma OneArgument(before: Group, a: Group)
    requires R.IsPlainOperand(a)
    ensures Bracket([before, Mark(LBracket), a, Mark(RBracket)], 2, 1, [], []) == Collected([Complex(Argument, [a])], 3)
  {
    var tokens := [before, Mark(LBracket), a, Mark(RBracket)];
    var arg := Complex(Argument, [a]);
    assert ArgumentOf([a]) == arg;
    assert [] + [a] == [a];
    assert Bracket(tokens, 4, 0, [], [arg]) == Collected([arg], 3);
    assert Bracket(tokens, 3, 1, [a], []) == Bracket(tokens, 4, 0, [], [arg]) by { assert [] + [arg] == [arg]; }
  }

  lemma BracketBuilds(before: Group, a: Group)
    requires R.IsPlainOperand(a) && (Ends(before) || Starts(before))
    ensures var y := Shunt(Yard([], []), before);
            Build([before, Mark(LBracket), a, Mark(RBracket)])
            == Complex(Root, y.out + [Complex(if Ends(before) then DataAccess else ArrayLiteral, [Complex(Argument, [a])])] + Unwind(y.ops))
  {
    hide Bracket, Shunt, Unwind;
    var tokens := [before, Mark(LBracket), a, Mark(RBracket)];
    OneArgument(before, a);
    R.ReadSimple(tokens, 0, Yard([], []));
    var y := Shunt(Yard([], []), before);
    var group := Complex(if Ends(before) then DataAccess else ArrayLiteral, [Complex(Argument, [a])]);
    R.ReadEnd(tokens, y.(out := y.out + [group]));
  }
}
