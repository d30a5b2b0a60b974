/** From syntax trees of expressions to pseudo operations. */
module ExpressionsTranslator {
  import opened Words
  import opened Pseudo
  import opened Tokens
  import opened PostfixSpec
  import opened SyntaxTrees
  import opened ConstantsTable

  /** Symbols in scope with their description ids. */
  type Names = map<Text, Word>

  /** Reported: an error message. Outside: a construct that is not part of this model. */
  datatype Emission = Emission(code: seq<PseudoOp>, constants: seq<Text>) | Reported | Outside

  /** The operation an operator stands for. */
  function OpCodeOf(op: Symbol): PseudoOpCode
    requires op != Field && op != PointerField
  {
    match op
    case NotU => PseudoOpCode.Not case BitNotU => BitNot case MinusU => Negative
    case StarU => Dereference case AmpersandU => GetPointer
    case DecrementU => PrefixDecrement case IncrementU => PrefixIncrement
    case UIncrement => PostfixIncrement case UDecrement => PostfixDecrement
    case Power | SetPower => Exponentiate
    case Times | SetTimes => Multiply case Over | SetOver => Divide case Percent | SetPercent => Mod
    case Plus | SetPlus => Add case Minus | SetMinus => Subtract
    case ShiftL | SetShiftL => BitOffsetLeft case ShiftR | SetShiftR => BitOffsetRight
    case Lt => Less case Le => LessEqual case Gt => Greater case Ge => GreaterEqual
    case Eq => Equal case Ne => NotEqual
    case Ampersand | SetAmpersand => PseudoOpCode.BitAnd case Bar | SetBar => PseudoOpCode.BitOr
    case AndAnd | SetAndAnd => And case OrOr | SetOrOr => Or
    case SetTilde => BitNot
    case _ => Nop
  }

  function Last(code: seq<PseudoOp>): PseudoOp
    requires code != []
  {
    code[|code| - 1]
  }

  function ConstantOp(constants: seq<Text>, value: Text): PseudoOp {
    PseudoOp(UseConstant, Wrap(IndexIn(Interned(constants, value), value)), Nop)
  }

  /** An identifier in scope or a literal; the keywords break and continue are claimed by the statements around. */
  function Operand(names: Names, token: Token, code: seq<PseudoOp>, constants: seq<Text>): Emission {
    match token.kind
    case Identifier => if token.text in names then Emission(code + [PseudoOp(Use, names[token.text], Nop)], constants) else Reported
    case Literal => Emission(code + [ConstantOp(constants, token.text)], Interned(constants, token.text))
    case Keyword => Outside
    case _ => Reported
  }

  /** After the left side: a variable declared there is used at once. */
  function Opened(code: seq<PseudoOp>): seq<PseudoOp>
    requires code != []
  {
    if Last(code).code == DeclareVariable then code + [PseudoOp(Use, Last(code).arg0, Nop)] else code
  }

  /** The right side's code, then the assignment; an assignment just before it leaves its value for it. */
  function Closed(left: seq<PseudoOp>, right: seq<PseudoOp>, compound: PseudoOpCode): seq<PseudoOp>
    requires left != []
  {
    var merged := left + right;
    var last := Last(merged);
    (if last.code == Assign then merged[|merged| - 1 := last.(code := AssignR)] else merged) + [PseudoOp(Assign, 0, compound)]
  }

  function Analyzed(names: Names, node: Node, code: seq<PseudoOp>, constants: seq<Text>): Emission
    decreases node
  {
    match node.kind
    case Plain => Operand(names, node.token, code, constants)
    case AccessChain => AnalyzedAll(names, node.children, code, constants)
    case Grouped(kind) =>
      if kind == Root || kind == Argument then AnalyzedAll(names, node.children, code, constants)
      else if kind == DataAccess then
        (match AnalyzedAll(names, node.children, code, constants)
         case Emission(c, k) => Emission(c + [Op(GetByArgument)], k)
         case other => other)
      else if kind == ArrayLiteral || kind == QualifiedName then Outside
      else Emission(code, constants)
    case Operation =>
      if !node.token.text.Sym? || node.children == [] then Outside
      else AnalyzedOperation(names, node, node.token.text.op, code, constants)
    case Declaration => Outside
    case _ => Emission(code, constants)
  }

  function AnalyzedAll(names: Names, nodes: seq<Node>, code: seq<PseudoOp>, constants: seq<Text>): Emission
    decreases nodes
  {
    if nodes == [] then Emission(code, constants)
    else
      match Analyzed(names, nodes[0], code, constants)
      case Emission(c, k) => AnalyzedAll(names, nodes[1..], c, k)
      case other => other
  }

  /** Operands first, then the operation. An assignment's right side is analysed before its left side, into code of its own. */
  function AnalyzedOperation(names: Names, node: Node, op: Symbol, code: seq<PseudoOp>, constants: seq<Text>): Emission
    requires node.children != []
    decreases node, 0
  {
    var front, back := node.children[0], node.children[|node.children| - 1];
    if op == Field || op == PointerField then Outside
    else
      match Info(op).kind
      case UnaryOperator =>
        (match Analyzed(names, front, code, constants)
         case Emission(c, k) => Emission(c + [Op(OpCodeOf(op))], k)
         case other => other)
      case BinaryOperator =>
        (match Analyzed(names, front, code, constants)
         case Emission(c, k) =>
           (match Analyzed(names, back, c, k)
            case Emission(d, k2) => Emission(d + [Op(OpCodeOf(op))], k2)
            case other => other)
         case other => other)
      case AssignmentOperator =>
        (match Analyzed(names, back, [], constants)
         case Emission(right, k) =>
           (match Analyzed(names, front, code, k)
            case Emission(c, k2) => if c == [] then Reported else Emission(Closed(Opened(c), right, OpCodeOf(op)), k2)
            case other => other)
         case other => other)
      case _ => Emission(code, constants)
  }

  // ----- the translator -----

  class PseudoTranslationState {
    var pseudoCode: seq<PseudoOp>
    const constants: ImmediateConstantsTable<Text>

    /** A state of its own, with the compilation's constants. */
    constructor (constants: ImmediateConstantsTable<Text>)
      ensures pseudoCode == [] && this.constants == constants
    {
      pseudoCode := [];
      this.constants := constants;
    }
  }

  datatype Status = Translated | Failure(cause: Emission)

  method AnalyzeAPST(names: Names, node: Node, pts: PseudoTranslationState) returns (status: Status)
    requires pts.constants.Valid()
    modifies pts, pts.constants
    ensures pts.constants.Valid()
    ensures var e := Analyzed(names, node, old(pts.pseudoCode), old(pts.constants.constantsById));
            match status
            case Translated => e == Emission(pts.pseudoCode, pts.constants.constantsById)
            case Failure(cause) => e == cause && !e.Emission?
    decreases node, 2
  {
    match node.kind
    case Plain =>
      status := HandleSimple(names, node.token, pts);
    case AccessChain =>
      status := AnalyzeAll(names, node.children, pts);
    case Grouped(kind) =>
      if kind == Root || kind == Argument {
        status := AnalyzeAll(names, node.children, pts);
      } else if kind == DataAccess {
        status := AnalyzeAll(names, node.children, pts);
        if status.Translated? {
          pts.pseudoCode := pts.pseudoCode + [Op(GetByArgument)];
        }
      } else if kind == ArrayLiteral || kind == QualifiedName {
        status := Failure(Outside);
      } else {
        status := Translated;
      }
    case Operation =>
      if !node.token.text.Sym? || node.children == [] {
        status := Failure(Outside);
      } else {
        status := AnalyzeOperation(names, node, node.token.text.op, pts);
      }
    case Declaration =>
      status := Failure(Outside);
    case TypeCast =>
      status := Translated;
    case NewExpression =>
      status := Translated;
  }

  method AnalyzeAll(names: Names, nodes: seq<Node>, pts: PseudoTranslationState) returns (status: Status)
    requires pts.constants.Valid()
    modifies pts, pts.constants
    ensures pts.constants.Valid()
    ensures var e := AnalyzedAll(names, nodes, old(pts.pseudoCode), old(pts.constants.constantsById));
            match status
            case Translated => e == Emission(pts.pseudoCode, pts.constants.constantsById)
            case Failure(cause) => e == cause && !e.Emission?
    decreases nodes, 0
  {
    var i := 0;
    while i < |nodes|
      invariant i <= |nodes| && pts.constants.Valid()
      invariant AnalyzedAll(names, nodes, old(pts.pseudoCode), old(pts.constants.constantsById))
             == AnalyzedAll(names, nodes[i..], pts.pseudoCode, pts.constants.constantsById)
    {
      assert nodes[i..][0] == nodes[i] && nodes[i..][1..] == nodes[i + 1..];
      status := AnalyzeAPST(names, nodes[i], pts);
      if status.Failure? { return; }
      i := i + 1;
    }
    status := Translated;
  }

  method AnalyzeOperation(names: Names, node: Node, op: Symbol, pts: PseudoTranslationState) returns (status: Status)
    requires pts.constants.Valid() && node.children != []
    modifies pts, pts.constants
    ensures pts.constants.Valid()
    ensures var e := AnalyzedOperation(names, node, op, old(pts.pseudoCode), old(pts.constants.constantsById));
            match status
            case Translated => e == Emission(pts.pseudoCode, pts.constants.constantsById)
            case Failure(cause) => e == cause && !e.Emission?
    decreases node, 1
  {
    hide Analyzed, OpCodeOf, Closed, Opened;
    var front, back := node.children[0], node.children[|node.children| - 1];
    if op == Field || op == PointerField { return Failure(Outside); }
    var kind := Info(op).kind;
    if kind == UnaryOperator {
      status := AnalyzeAPST(names, front, pts);
      if status.Failure? { return; }
      pts.pseudoCode := pts.pseudoCode + [Op(OpCodeOf(op))];
    } else if kind == BinaryOperator {
      status := AnalyzeAPST(names, front, pts);
      if status.Failure? { return; }
      status := AnalyzeAPST(names, back, pts);
      if status.Failure? { return; }
      pts.pseudoCode := pts.pseudoCode + [Op(OpCodeOf(op))];
    } else if kind == AssignmentOperator {
      var temp := new PseudoTranslationState(pts.constants);
      status := AnalyzeAPST(names, back, temp);
      if status.Failure? { return; }
      status := AnalyzeAPST(names, front, pts);
      if status.Failure? { return; }
      if pts.pseudoCode == [] { return Failure(Reported); }
      MergeAssignment(pts, temp, OpCodeOf(op));
    } else {
      status := Translated;
    }
  }

  method MergeAssignment(pts: PseudoTranslationState, right: PseudoTranslationState, compound: PseudoOpCode)
    requires pts.pseudoCode != [] && pts != right
    modifies pts
    ensures pts.pseudoCode == Closed(Opened(old(pts.pseudoCode)), right.pseudoCode, compound)
  {
    if Last(pts.pseudoCode).code == DeclareVariable {
      pts.pseudoCode := pts.pseudoCode + [PseudoOp(Use, Last(pts.pseudoCode).arg0, Nop)];
    }
    pts.pseudoCode := pts.pseudoCode + right.pseudoCode;
    var last := |pts.pseudoCode| - 1;
    if pts.pseudoCode[last].code == Assign {
      pts.pseudoCode := pts.pseudoCode[last := pts.pseudoCode[last].(code := AssignR)];
    }
    pts.pseudoCode := pts.pseudoCode + [PseudoOp(Assign, 0, compound)];
  }

  method HandleSimple(names: Names, token: Token, pts: PseudoTranslationState) returns (status: Status)
    requires pts.constants.Valid()
    modifies pts, pts.constants
    ensures pts.constants.Valid()
    ensures var e := Operand(names, token, old(pts.pseudoCode), old(pts.constants.constantsById));
            match status
            case Translated => e == Emission(pts.pseudoCode, pts.constants.constantsById)
            case Failure(cause) => e == cause && !e.Emission?
  {
    if token.kind == Identifier {
      if token.text !in names { return Failure(Reported); }
      pts.pseudoCode := pts.pseudoCode + [PseudoOp(Use, names[token.text], Nop)];
    } else if token.kind == Literal {
      var id := pts.constants.GetOrAdd(token.text);
      pts.pseudoCode := pts.pseudoCode + [PseudoOp(UseConstant, Wrap(id), Nop)];
    } else {
      return Failure(if token.kind == Keyword then Outside else Reported);
    }
    status := Translated;
  }
}
