/** Tokens, with the strings the syntax gives a meaning to spelled out. */
module Tokens {

  datatype TokenType =
    | UndefinedToken | Identifier | Operator | Literal | ConstLiteral | Delimiter | TypeMarker | Keyword | CompilationLabel
    | Attribute

  /** The operators of the table; a prefix operator is written with a trailing u, a postfix one with a leading u. */
  datatype Symbol =
    | Scope | Declare | Field | PointerField
    | New | To
    | NotU | BitNotU | MinusU | StarU | AmpersandU | DecrementU | IncrementU | UIncrement | UDecrement
    | Power
    | Times | Over | Percent
    | Plus | Minus
    | ShiftL | ShiftR
    | Lt | Le | Gt | Ge
    | Eq | Ne
    | Ampersand | Bar
    | AndAnd | OrOr
    | Set | SetPlus | SetMinus | SetTimes | SetOver | SetPercent | SetAmpersand | SetBar | SetShiftL | SetShiftR
    | SetAndAnd | SetOrOr | SetTilde | SetPower

  /** A token's string. A string literal may have the same string as a bracket, a comma or an operator. */
  datatype Text = LParen | RParen | LBracket | RBracket | RBrace | Comma | Sym(op: Symbol) | Name(s: string)

  datatype Token = Token(kind: TokenType, text: Text)

  predicate IsDelimiter(t: Token, text: Text) {
    t.kind == Delimiter && t.text == text
  }

  predicate IsKeyword(t: Token, word: string) {
    t.kind == Keyword && t.text == Name(word)
  }

  // ----- the operator table -----

  datatype OperatorType = UnaryOperator | BinaryOperator | AssignmentOperator | DeclarationOperator | MetaOperator

  datatype Associativity = LeftRight | RightLeft

  datatype OperatorInfo = OperatorInfo(priority: int, kind: OperatorType, assoc: Associativity)

  function Info(op: Symbol): OperatorInfo {
    match op
    case Declare => OperatorInfo(12, DeclarationOperator, LeftRight)
    case Scope | Field | PointerField => OperatorInfo(12, BinaryOperator, LeftRight)
    case New | To => OperatorInfo(11, MetaOperator, LeftRight)
    case NotU | BitNotU | MinusU | StarU | AmpersandU | DecrementU | IncrementU | UIncrement | UDecrement =>
      OperatorInfo(9, UnaryOperator, LeftRight)
    case Power => OperatorInfo(8, BinaryOperator, LeftRight)
    case Times | Over | Percent => OperatorInfo(7, BinaryOperator, LeftRight)
    case Plus | Minus => OperatorInfo(6, BinaryOperator, LeftRight)
    case ShiftL | ShiftR => OperatorInfo(4, BinaryOperator, LeftRight)
    case Lt | Le | Gt | Ge => OperatorInfo(3, BinaryOperator, LeftRight)
    case Eq | Ne => OperatorInfo(2, BinaryOperator, LeftRight)
    case Ampersand | Bar => OperatorInfo(1, BinaryOperator, LeftRight)
    case AndAnd | OrOr => OperatorInfo(0, BinaryOperator, LeftRight)
    case _ => OperatorInfo(-1, AssignmentOperator, RightLeft)
  }

  function Priority(op: Symbol): int {
    Info(op).priority
  }

  /** An operator on the stack leaves it before the arriving one is pushed. */
  predicate Pops(back: Symbol, arriving: Symbol) {
    var b, c := Info(back), Info(arriving);
    b.priority > c.priority
    || (b.priority == c.priority && c.assoc == LeftRight && !(b.kind == UnaryOperator && c.kind == UnaryOperator))
  }

  /** Operators of one priority agree: those of priority 9 are unary, those of priority -1 assign, no others do. */
  lemma LevelsAgree(op: Symbol)
    ensures Info(op).kind == UnaryOperator <==> Priority(op) == 9
    ensures Info(op).assoc == RightLeft <==> Priority(op) == -1
    ensures -1 <= Priority(op) <= 12
  {
  }
}
