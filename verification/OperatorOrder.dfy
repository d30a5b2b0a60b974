/** Which of two operators binds its operands first, with the operators listed, and the postfix forms that follow from it. */
module OperatorOrder {
  import opened ByteCode
  import opened Tokens
  import opened PostfixSpec
  import opened PrintedTrees
  import R = PostfixRoundTrip

  // ----- the operators by classes -----

  predicate Assigning(op: Symbol) {
    op in {Set, SetPlus, SetMinus, SetTimes, SetOver, SetPercent, SetAmpersand, SetBar, SetShiftL, SetShiftR, SetAndAnd, SetOrOr, SetTilde,
           SetPower}
  }

  /** The operators between two operands, the loosest first. The operators before or behind an operand have class 9. */
  function Class(op: Symbol): Option<nat> {
    match op
    case AndAnd | OrOr => Some(1)
    case Ampersand | Bar => Some(2)
    case Eq | Ne => Some(3)
    case Lt | Le | Gt | Ge => Some(4)
    case ShiftL | ShiftR => Some(5)
    case Plus | Minus => Some(6)
    case Times | Over | Percent => Some(7)
    case Power => Some(8)
    case Field | PointerField | Scope | Declare => Some(10)
    case _ => if Assigning(op) then Some(0) else None
  }

  predicate Before(op: Symbol) {
    op in {NotU, BitNotU, MinusU, StarU, AmpersandU, DecrementU, IncrementU}
  }

  predicate Behind(op: Symbol) {
    op == UIncrement || op == UDecrement
  }

  /** In a row of two, the first operator binds the operand between them: it is in a tighter class, or in the same and does not assign. */
  predicate FirstBinds(first: Symbol, second: Symbol)
    requires Class(first).Some? && Class(second).Some?
  {
    Class(first).value > Class(second).value || (Class(first) == Class(second) && !Assigning(first))
  }

  lemma ClassesAreInfix(op: Symbol)
    ensures Class(op).Some? <==> IsInfix(op)
    ensures Before(op) <==> IsPrefix(op)
    ensures Behind(op) <==> IsSuffix(op)
    ensures Before(op) || Behind(op) ==> Priority(op) == 9
  {
    hide Class;
    HasClass(op);
  }

  lemma HasClass(op: Symbol)
    ensures Class(op).Some? <==> IsInfix(op)
  {
  }

  lemma ClassBounds(op: Symbol)
    requires Class(op).Some?
    ensures Class(op).value <= 8 || Class(op).value == 10
    ensures Assigning(op) <==> Class(op).value == 0
  {
  }

  /** The number that the operator table has in place of the class. */
  lemma ClassOf(op: Symbol)
    requires Class(op).Some?
    ensures var c, p := Class(op).value, Priority(op);
            p == if c == 0 then -1 else if c <= 4 then c - 1 else if c == 5 then 4 else if c <= 8 then c else 12
    ensures Class(op).value <= 8 || Class(op).value == 10
    ensures Assigning(op) <==> Class(op).value == 0
  {
    hide Assigning;
    ClassBounds(op);
    if Assigning(op) {
      AssigningPriority(op);
    }
  }

  lemma AssigningPriority(op: Symbol)
    requires Assigning(op)
    ensures Priority(op) == -1
  {
  }

  lemma FirstGivesWay(first: Symbol, second: Symbol)
    requires Class(first).Some? && Class(second).Some?
    ensures FirstBinds(first, second) <==> Pops(first, second)
  {
    hide Info, Class, Assigning;
    ClassesAreInfix(first);
    ClassOf(first);
    ClassOf(second);
    LevelsAgree(first);
    LevelsAgree(second);
  }

  // ----- written in a row -----

  /** Of a op b op c, the operator that binds b comes out first. */
  lemma InfixOrder(a: Group, first: Symbol, b: Group, second: Symbol, c: Group)
    requires R.IsPlainOperand(a) && R.IsPlainOperand(b) && R.IsPlainOperand(c) && Class(first).Some? && Class(second).Some?
    ensures Build([a, OpToken(first), b, OpToken(second), c]) == Complex(Root,
              if FirstBinds(first, second) then [a, b, OpToken(first), c, OpToken(second)]
              else [a, b, c, OpToken(second), OpToken(first)])
  {
    hide Build, Pops, FirstBinds, Class;
    ClassesAreInfix(first);
    ClassesAreInfix(second);
    FirstGivesWay(first, second);
    R.PriorityDecides(a, first, b, second, c);
  }

  // ----- parentheses of any tree -----

  /** How tightly a tree holds together, by classes. */
  function Strength(e: Tree): nat {
    match e
    case Infix(op, _, _) => if Class(op).Some? then Class(op).value else 11
    case Prefix(_, _) => 9
    case Suffix(_, _) => 9
    case _ => 11
  }

  lemma StrengthOrders(e: Tree, bracketed: bool)
    requires TreeOk(e, bracketed)
    ensures var s, p := Strength(e), Level(e);
            s <= 11 && p == if s == 0 then -1 else if s <= 4 then s - 1 else if s == 5 then 4 else if s <= 9 then s else if s == 10 then 12 else 13
  {
    hide Info, Class, PlainText, NamesSomething;
    if e.Infix? {
      ClassesAreInfix(e.op);
      ClassOf(e.op);
    } else if e.Prefix? || e.Suffix? {
      ClassesAreInfix(e.op);
    }
  }

  /**
   * Where a tree is written with parentheses, by the classes: around a left operand that is looser than the operator, around a right operand
   * that is not tighter, assignments the other way round; around the operand of an operator before it that is looser, and of one behind it
   * that is not tighter than such an operator.
   */
  lemma ParenthesesByClass(e: Tree, bracketed: bool)
    requires TreeOk(e, bracketed)
    ensures match e
            case Infix(op, l, r) =>
              && Class(op).Some?
              && (BareLeft(op, l) <==> Strength(l) > Class(op).value || (Strength(l) == Class(op).value && !Assigning(op)))
              && (BareRight(op, r) <==> Strength(r) > Class(op).value || (Strength(r) == Class(op).value && Assigning(op)))
            case Prefix(op, a) => Before(op) && (BareArg(op, a) <==> Strength(a) >= 9)
            case Suffix(op, a) => Behind(op) && (BareArg(op, a) <==> Strength(a) > 9)
            case _ => true
  {
    hide Info, Class, Assigning, Level, Strength, PlainText, NamesSomething;
    if e.Infix? {
      ClassesAreInfix(e.op);
      ClassOf(e.op);
      LevelsAgree(e.op);
      StrengthOrders(e.left, bracketed);
      StrengthOrders(e.right, bracketed);
    } else if e.Prefix? || e.Suffix? {
      ClassesAreInfix(e.op);
      StrengthOrders(e.arg, bracketed);
    }
  }

  // ----- operators before and behind an operand -----

  predicate Operand(g: Group) {
    R.IsPlainOperand(g)
  }

  lemma LeafRow(g: Group)
    requires Operand(g)
    ensures TreeOk(Leaf(g), false) && Print(Leaf(g)) == [g] && PostOrder(Leaf(g)) == [g] && Strength(Leaf(g)) == 11
  {
  }

  /** A tree of two operands without parentheses, with how tightly it holds. */
  lemma InfixRow(op: Symbol, l: Tree, r: Tree)
    requires Class(op).Some? && TreeOk(l, false) && TreeOk(r, false)
    ensures var e := Infix(op, l, r);
            && TreeOk(e, false) && Strength(e) == Class(op).value && PostOrder(e) == PostOrder(l) + PostOrder(r) + [OpToken(op)]
            && (Strength(l) > Class(op).value && Strength(r) > Class(op).value ==> Print(e) == Print(l) + [OpToken(op)] + Print(r))
  {
    hide Info, Class, BareLeft, BareRight;
    ClassesAreInfix(op);
    ParenthesesByClass(Infix(op, l, r), false);
  }

  lemma BeforeRow(u: Symbol, a: Tree)
    requires Before(u) && TreeOk(a, false)
    ensures var e := Prefix(u, a);
            && TreeOk(e, false) && Strength(e) == 9 && PostOrder(e) == PostOrder(a) + [OpToken(u)]
            && (Strength(a) >= 9 ==> Print(e) == [OpToken(u)] + Print(a))
  {
    hide Info, Class, BareArg;
    ClassesAreInfix(u);
    ParenthesesByClass(Prefix(u, a), false);
  }

  lemma BehindRow(u: Symbol, a: Tree)
    requires Behind(u) && TreeOk(a, false)
    ensures var e := Suffix(u, a);
            && TreeOk(e, false) && Strength(e) == 9 && PostOrder(e) == PostOrder(a) + [OpToken(u)]
            && (Strength(a) > 9 ==> Print(e) == Print(a) + [OpToken(u)])
  {
    hide Info, Class, BareArg;
    ClassesAreInfix(u);
    ParenthesesByClass(Suffix(u, a), false);
  }

  lemma RowBuilt(e: Tree, tokens: seq<Group>, order: seq<Group>)
    requires TreeOk(e, false) && Print(e) == tokens && PostOrder(e) == order && |tokens| > 1
    ensures Build(tokens) == Complex(Root, order)
  {
    hide Build, Print, PostOrder, TreeOk;
    R.BuildTree(e, false);
  }

  /** u a op b: the operator before a binds it, unless op is member access. */
  lemma BeforeThenInfix(u: Symbol, a: Group, op: Symbol, b: Group)
    requires Operand(a) && Operand(b) && Before(u) && Class(op).Some?
    ensures Build([OpToken(u), a, OpToken(op), b]) == Complex(Root,
              if Class(op).value < 9 then [a, OpToken(u), b, OpToken(op)] else [a, b, OpToken(op), OpToken(u)])
  {
    hide Build, Class, Strength, TreeOk, Print, PostOrder, R.IsPlainOperand;
    var x, y, p, q := Leaf(a), Leaf(b), OpToken(u), OpToken(op);
    LeafRow(a);
    LeafRow(b);
    ClassOf(op);
    var tokens := [p, a, q, b];
    if Class(op).value < 9 {
      BeforeRow(u, x);
      InfixRow(op, Prefix(u, x), y);
      assert [p] + [a] + [q] + [b] == tokens;
      RowBuilt(Infix(op, Prefix(u, x), y), tokens, [a] + [p] + [b] + [q]);
      assert [a] + [p] + [b] + [q] == [a, p, b, q];
    } else {
      InfixRow(op, x, y);
      BeforeRow(u, Infix(op, x, y));
      assert [p] + ([a] + [q] + [b]) == tokens;
      RowBuilt(Prefix(u, Infix(op, x, y)), tokens, [a] + [b] + [q] + [p]);
      assert [a] + [b] + [q] + [p] == [a, b, q, p];
    }
  }

  /** a op u b: the operator before b binds it. */
  lemma InfixThenBefore(a: Group, op: Symbol, u: Symbol, b: Group)
    requires Operand(a) && Operand(b) && Before(u) && Class(op).Some? && Class(op).value < 9
    ensures Build([a, OpToken(op), OpToken(u), b]) == Complex(Root, [a, b, OpToken(u), OpToken(op)])
  {
    hide Build, Class, Strength, TreeOk, Print, PostOrder, R.IsPlainOperand;
    var x, y, p, q := Leaf(a), Leaf(b), OpToken(u), OpToken(op);
    LeafRow(a);
    LeafRow(b);
    BeforeRow(u, y);
    InfixRow(op, x, Prefix(u, y));
    assert [a] + [q] + ([p] + [b]) == [a, q, p, b];
    RowBuilt(Infix(op, x, Prefix(u, y)), [a, q, p, b], [a] + ([b] + [p]) + [q]);
    assert [a] + ([b] + [p]) + [q] == [a, b, p, q];
  }

  /** a op b u and a u op b: an operator behind an operand binds it, but member access binds it first. */
  lemma InfixAndBehind(a: Group, op: Symbol, b: Group, u: Symbol)
    requires Operand(a) && Operand(b) && Behind(u) && Class(op).Some?
    ensures Class(op).value < 9 ==> Build([a, OpToken(op), b, OpToken(u)]) == Complex(Root, [a, b, OpToken(u), OpToken(op)])
    ensures Class(op).value < 9 ==> Build([a, OpToken(u), OpToken(op), b]) == Complex(Root, [a, OpToken(u), b, OpToken(op)])
    ensures Class(op).value > 9 ==> Build([a, OpToken(op), b, OpToken(u)]) == Complex(Root, [a, b, OpToken(op), OpToken(u)])
  {
    hide Build, Class, Strength, TreeOk, Print, PostOrder, R.IsPlainOperand;
    var x, y, p, q := Leaf(a), Leaf(b), OpToken(u), OpToken(op);
    LeafRow(a);
    LeafRow(b);
    BehindRow(u, x);
    BehindRow(u, y);
    ClassOf(op);
    if Class(op).value < 9 {
      InfixRow(op, x, Suffix(u, y));
      assert [a] + [q] + ([b] + [p]) == [a, q, b, p];
      RowBuilt(Infix(op, x, Suffix(u, y)), [a, q, b, p], [a] + ([b] + [p]) + [q]);
      assert [a] + ([b] + [p]) + [q] == [a, b, p, q];
      InfixRow(op, Suffix(u, x), y);
      assert [a] + [p] + [q] + [b] == [a, p, q, b];
      RowBuilt(Infix(op, Suffix(u, x), y), [a, p, q, b], [a] + [p] + [b] + [q]);
      assert [a] + [p] + [b] + [q] == [a, p, b, q];
    } else if Class(op).value > 9 {
      InfixRow(op, x, y);
      BehindRow(u, Infix(op, x, y));
      assert [a] + [q] + [b] + [p] == [a, q, b, p];
      RowBuilt(Suffix(u, Infix(op, x, y)), [a, q, b, p], [a] + [b] + [q] + [p]);
      assert [a] + [b] + [q] + [p] == [a, b, q, p];
    }
  }

  /** u v a and u a v: of two operators before an operand the nearer binds first, and one behind it before one before it. */
  lemma UnaryInARow(u: Symbol, v: Symbol, a: Group)
    requires Operand(a) && Before(u)
    ensures Before(v) ==> Build([OpToken(u), OpToken(v), a]) == Complex(Root, [a, OpToken(v), OpToken(u)])
    ensures Behind(v) ==> Build([OpToken(u), a, OpToken(v)]) == Complex(Root, [a, OpToken(v), OpToken(u)])
  {
    hide Build, Strength, TreeOk, Print, PostOrder, R.IsPlainOperand, Before, Behind;
    var x, p, q := Leaf(a), OpToken(u), OpToken(v);
    LeafRow(a);
    if Before(v) {
      BeforeRow(v, x);
      BeforeRow(u, Prefix(v, x));
      assert [p] + ([q] + [a]) == [p, q, a];
      RowBuilt(Prefix(u, Prefix(v, x)), [p, q, a], [a] + [q] + [p]);
      assert [a] + [q] + [p] == [a, q, p];
    }
    if Behind(v) {
      BehindRow(v, x);
      BeforeRow(u, Suffix(v, x));
      assert [p] + ([a] + [q]) == [p, a, q];
      RowBuilt(Prefix(u, Suffix(v, x)), [p, a, q], [a] + [q] + [p]);
      assert [a] + [q] + [p] == [a, q, p];
    }
  }
}
