/** What each operator symbol of the source means, on integers and bits, and what an assignment leaves in memory. */
module OperatorMeaning {
  import opened Words
  import opened ByteCode
  import opened Machine
  import opened MachineLaws
  import opened Tokens
  import E = Expressions
  import L = Literals
  import ML = MemoryLaws
  import P = PrintedTrees
  import PS = PostfixSpec
  import Pseudo
  import RT = RawTokens
  import S = SourceExpressions
  import SE = StackEvaluator
  import ST = SyntaxTrees
  import T = ExpressionsTranslator

  // ----- the symbols -----

  /** A word as the number that an operator takes it for. */
  function Num(signed: bool, w: Word): int {
    if signed then Signed(w) else w
  }

  predicate IsArithmetic(op: Symbol) {
    op in {Times, Over, Percent, Plus, Minus}
  }

  predicate HasMeaning(op: Symbol) {
    IsArithmetic(op) || op in {ShiftL, ShiftR, Lt, Le, Gt, Ge, Eq, Ne, Ampersand, Bar, AndAnd, OrOr}
  }

  /** The result of a binary operator; for signed operands as signed numbers. */
  ghost predicate Gives(op: Symbol, signed: bool, a: Word, b: Word, r: Word) {
    var x, y := Num(signed, a), Num(signed, b);
    match op
    case Times => Represents(r, x * y)
    case Over => Quotient(x, y, r)
    case Percent => Remainder(x, y, r)
    case Plus => Represents(r, x + y)
    case Minus => Represents(r, x - y)
    case ShiftL => Raised(a, b % 64, r)
    case ShiftR => Lowered(a, b % 64, r)
    case Lt => Truth(x < y, r)
    case Le => Truth(x <= y, r)
    case Gt => Truth(x > y, r)
    case Ge => Truth(x >= y, r)
    case Eq => Truth(x == y, r)
    case Ne => Truth(x != y, r)
    case Ampersand => InBoth(a, b, r)
    case Bar => InEither(a, b, r)
    case AndAnd => Truth(a != 0 && b != 0, r)
    case OrOr => Truth(a != 0 || b != 0, r)
    case _ => false
  }

  /** The operator that a compound assignment combines with. */
  function Combining(op: Symbol): Option<Symbol> {
    match op
    case SetTimes => Some(Times) case SetOver => Some(Over) case SetPercent => Some(Percent)
    case SetPlus => Some(Plus) case SetMinus => Some(Minus)
    case SetShiftL => Some(ShiftL) case SetShiftR => Some(ShiftR)
    case SetAmpersand => Some(Ampersand) case SetBar => Some(Bar)
    case SetAndAnd => Some(AndAnd) case SetOrOr => Some(OrOr)
    case _ => None
  }

  predicate BothSigned(a: Pseudo.Primitive, b: Pseudo.Primitive) {
    a != Pseudo.UInt && b != Pseudo.UInt
  }

  /** Arithmetic of two signed operands is signed, everything else unsigned. */
  function ResultKind(op: Symbol, a: Pseudo.Primitive, b: Pseudo.Primitive): Pseudo.Primitive {
    if IsArithmetic(op) && BothSigned(a, b) then Pseudo.Int else Pseudo.UInt
  }

  /** What an operator answers for two values. */
  ghost predicate Combined(op: Symbol, a: SE.Cell, b: SE.Cell, r: E.Answer)
    requires a.Value? && b.Value?
  {
    if op in {Over, Percent} && b.bits == 0 then r == E.DividesByZero
    else r.Answer? && r.value.Value? && r.value.kind == ResultKind(op, a.kind, b.kind)
         && Gives(op, BothSigned(a.kind, b.kind), a.bits, b.bits, r.value.bits)
  }

  // ----- the machine operation behind them -----

  function Operation(op: Symbol, signed: bool): Option<BinaryOp> {
    match op
    case Times => Some(if signed then MulInt else MulUInt)
    case Over => Some(if signed then DivInt else DivUInt)
    case Percent => Some(if signed then ModInt else ModUInt)
    case Plus => Some(if signed then AddInt else AddUInt)
    case Minus => Some(if signed then SubInt else SubUInt)
    case ShiftL => Some(OffsetLeft)
    case ShiftR => Some(OffsetRight)
    case Ampersand => Some(BitwiseAnd)
    case Bar => Some(BitwiseOr)
    case AndAnd => Some(LogicAnd)
    case OrOr => Some(LogicOr)
    case _ => None
  }

  lemma OperationGives(op: Symbol, signed: bool, a: Word, b: Word, r: Word)
    requires Operation(op, signed).Some?
    ensures Gives(op, signed, a, b, r) <==> Computes(Operation(op, signed).value, a, b, r)
  {
    hide Represents, Quotient, Remainder, InBoth, InEither, Raised, Lowered;
  }

  /** There is one result. */
  lemma GivesOnce(op: Symbol, signed: bool, a: Word, b: Word, r: Word, r': Word)
    requires Gives(op, signed, a, b, r) && Gives(op, signed, a, b, r')
    ensures r == r'
  {
    hide Computes, Represents, Quotient, Remainder, InBoth, InEither, Raised, Lowered;
    if Operation(op, signed).Some? {
      OperationGives(op, signed, a, b, r);
      OperationGives(op, signed, a, b, r');
      ComputesOnce(Operation(op, signed).value, a, b, r, r');
    }
  }

  /** The operation that the translator has for a symbol, applied to two values, gives what the symbol means. */
  lemma ArithmeticApplied(op: Symbol, a: SE.Cell, b: SE.Cell)
    requires a.Value? && b.Value? && Operation(op, true).Some?
    ensures var code := T.OpCodeOf(op);
            && Pseudo.IsBinary(code) && SE.IsCovered(code) && !Pseudo.IsComparison(code)
            && SE.Apply(code, a, b) ==
               match EvalBinary(Operation(op, BothSigned(a.kind, b.kind)).value, a.bits, b.bits)
               case Some(r) => Some(SE.Value(r, ResultKind(op, a.kind, b.kind)))
               case None => None
  {
    hide EvalBinary;
  }

  lemma ComparisonApplied(op: Symbol, a: SE.Cell, b: SE.Cell)
    requires a.Value? && b.Value? && op in {Lt, Le, Gt, Ge, Eq, Ne}
    ensures var code := T.OpCodeOf(op);
            && Pseudo.IsBinary(code) && SE.IsCovered(code)
            && SE.Apply(code, a, b).Some? && SE.Apply(code, a, b).value.Value? && SE.Apply(code, a, b).value.kind == Pseudo.UInt
            && Gives(op, BothSigned(a.kind, b.kind), a.bits, b.bits, SE.Apply(code, a, b).value.bits)
  {
    hide EvalBinary, Signed;
  }

  function AsAnswer(v: Option<SE.Cell>): E.Answer {
    match v case Some(c) => E.Answer(c) case None => E.DividesByZero
  }

  lemma SymbolApplied(op: Symbol, a: SE.Cell, b: SE.Cell)
    requires a.Value? && b.Value? && HasMeaning(op)
    ensures Pseudo.IsBinary(T.OpCodeOf(op)) && SE.IsCovered(T.OpCodeOf(op))
    ensures Combined(op, a, b, AsAnswer(SE.Apply(T.OpCodeOf(op), a, b)))
  {
    hide SE.Apply, EvalBinary, Computes, Gives, T.OpCodeOf;
    if op in {Lt, Le, Gt, Ge, Eq, Ne} {
      ComparisonApplied(op, a, b);
    } else {
      ArithmeticApplied(op, a, b);
      var signed := BothSigned(a.kind, b.kind);
      var machine := Operation(op, signed).value;
      BinaryComputes(machine, a.bits, b.bits);
      if EvalBinary(machine, a.bits, b.bits).Some? {
        OperationGives(op, signed, a.bits, b.bits, EvalBinary(machine, a.bits, b.bits).value);
      }
    }
  }

  // ----- expressions -----

  lemma OperatesExactly(op: Symbol)
    ensures S.Computes(op) && T.OpCodeOf(op) != Pseudo.Exponentiate <==> HasMeaning(op)
  {
  }

  /** How the parts of an expression are given: names, places and literals. */
  datatype Source = Source(names: T.Names, ctx: SE.Context, decode: L.Decoder, address: Text -> Word)

  ghost predicate MemoryOf(w: Source, mem: Memory) {
    SE.ContextOk(w.ctx) && |mem| == w.ctx.space.end
  }

  function ValueIn(w: Source, mem: Memory, e: P.Tree): (r: E.Answer)
    requires MemoryOf(w, mem) && L.Operates(w.names, e)
    ensures r.Answer? ==> r.value.Value?
  {
    L.TreeValue(w.names, w.ctx, mem, w.decode, w.address, e)
  }

  /** The value of an operator expression is what its symbol says of the operands' values, and no other symbols have one. */
  lemma InfixMeaning(w: Source, mem: Memory, op: Symbol, l: P.Tree, r: P.Tree)
    requires MemoryOf(w, mem)
    ensures L.Operates(w.names, P.Infix(op, l, r)) <==> HasMeaning(op) && L.Operates(w.names, l) && L.Operates(w.names, r)
    ensures L.Operates(w.names, P.Infix(op, l, r)) ==>
              var x, y, z := ValueIn(w, mem, l), ValueIn(w, mem, r), ValueIn(w, mem, P.Infix(op, l, r));
              if !x.Answer? then z == x else if !y.Answer? then z == y else Combined(op, x.value, y.value, z)
  {
    hide SE.ContextOk, SE.Apply, Combined, T.OpCodeOf, S.Computes;
    OperatesExactly(op);
    if L.Operates(w.names, P.Infix(op, l, r)) {
      S.ComputesBinary(op);
      var x, y := ValueIn(w, mem, l), ValueIn(w, mem, r);
      if x.Answer? && y.Answer? {
        SymbolApplied(op, x.value, y.value);
      }
    }
  }

  /** Negation and complement; a number without sign has no negative. */
  lemma PrefixMeaning(w: Source, mem: Memory, op: Symbol, a: P.Tree)
    requires MemoryOf(w, mem)
    ensures L.Operates(w.names, P.Prefix(op, a)) <==> (op == MinusU || op == BitNotU) && L.Operates(w.names, a)
    ensures L.Operates(w.names, P.Prefix(op, a)) ==>
              var x, z := ValueIn(w, mem, a), ValueIn(w, mem, P.Prefix(op, a));
              if !x.Answer? then z == x
              else if op == MinusU && x.value.kind == Pseudo.UInt then z == E.IllTyped
              else && z.Answer? && z.value.Value? && z.value.kind == x.value.kind
                   && if op == MinusU then Represents(z.value.bits, -Signed(x.value.bits)) else Inverted(x.value.bits, z.value.bits)
  {
    hide SE.ContextOk, Represents, Inverted, EvalUnary;
    if L.Operates(w.names, P.Prefix(op, a)) {
      var x := ValueIn(w, mem, a);
      if x.Answer? {
        UnaryIsExact(NegInt, x.value.bits, EvalUnary(NegInt, x.value.bits));
        UnaryIsExact(BitwiseNot, x.value.bits, EvalUnary(BitwiseNot, x.value.bits));
      }
    }
  }

  // ----- variables -----

  /** Where a variable is: in this module's stack part, or in that of the module that its symbol belongs to. */
  function AddressOf(ctx: SE.Context, id: Word): Word
    requires SE.ContextOk(ctx) && id in ctx.env.vars
  {
    var v := ctx.env.vars[id];
    SE.CellsOk(ctx);
    if v.declaredHere then (ctx.layout.bases[ctx.m] + v.offset) % TWO64
    else
      var s := ctx.layout.symbols[v.symbol];
      (ctx.layout.bases[s.moduleId] + s.offset) % TWO64
  }

  function SizeOf(ctx: SE.Context, id: Word): Word
    requires id in ctx.env.vars
  {
    ctx.env.vars[id].size
  }

  lemma VariableFits(ctx: SE.Context, mem: Memory, id: Word)
    requires SE.ContextOk(ctx) && |mem| == ctx.space.end && id in ctx.env.vars
    ensures SizeOf(ctx, id) <= 8 && AddressOf(ctx, id) + SizeOf(ctx, id) <= |mem|
  {
  }

  /** The number in a variable. */
  function Contents(ctx: SE.Context, mem: Memory, id: Word): Word
    requires SE.ContextOk(ctx) && |mem| == ctx.space.end && id in ctx.env.vars
  {
    VariableFits(ctx, mem, id);
    ReadBytes(mem, AddressOf(ctx, id), SizeOf(ctx, id))
  }

  /** The variable takes the number, cut to its size; a variable elsewhere keeps its own, and so does every other byte. */
  ghost predicate Takes(ctx: SE.Context, mem: Memory, id: Word, x: Word, mem': Memory)
    requires SE.ContextOk(ctx) && |mem| == ctx.space.end && id in ctx.env.vars
  {
    && |mem'| == |mem| && Contents(ctx, mem', id) == x % Pow256(SizeOf(ctx, id))
    && (forall other :: other in ctx.env.vars
                        && ML.Apart(AddressOf(ctx, id), SizeOf(ctx, id), AddressOf(ctx, other), SizeOf(ctx, other))
                        ==> Contents(ctx, mem', other) == Contents(ctx, mem, other))
    && ML.Holds(mem, AddressOf(ctx, id), x, SizeOf(ctx, id), mem')
  }

  lemma StoredTakes(ctx: SE.Context, mem: Memory, id: Word, x: Word)
    requires SE.ContextOk(ctx) && |mem| == ctx.space.end && id in ctx.env.vars
    ensures SE.CellOk(ctx, E.VariableCell(ctx, id))
    ensures Takes(ctx, mem, id, x, SE.Stored(ctx, mem, E.VariableCell(ctx, id), x))
    ensures SE.Read(ctx, mem, E.VariableCell(ctx, id)) == SE.Value(Contents(ctx, mem, id), ctx.env.vars[id].kind)
  {
    hide ReadBytes, WriteBytes, ML.Holds, Pow256;
    SE.CellsOk(ctx);
    var a, n := AddressOf(ctx, id), SizeOf(ctx, id);
    var mem' := SE.Stored(ctx, mem, E.VariableCell(ctx, id), x);
    VariableFits(ctx, mem, id);
    ML.WriteIsExact(mem, a, x, n, mem');
    ML.ReadBack(mem, a, x, n, a, n);
    forall other | other in ctx.env.vars && ML.Apart(a, n, AddressOf(ctx, other), SizeOf(ctx, other))
      ensures Contents(ctx, mem', other) == Contents(ctx, mem, other)
    {
      VariableFits(ctx, mem, other);
      ML.ReadBack(mem, a, x, n, AddressOf(ctx, other), SizeOf(ctx, other));
    }
  }

  /** A variable's value is the number in it; a literal's is that of its text; parentheses change nothing. */
  lemma OperandMeaning(w: Source, mem: Memory, e: P.Tree)
    requires MemoryOf(w, mem) && L.Operates(w.names, e)
    ensures S.IsVariable(w.names, e) ==>
              var id := w.names[e.operand.token.text];
              ValueIn(w, mem, e) == if id in w.ctx.env.vars then E.Answer(SE.Value(Contents(w.ctx, mem, id), w.ctx.env.vars[id].kind)) else E.IllTyped
    ensures e.Leaf? && e.operand.token.kind == Tokens.Literal ==>
              var l, z := w.decode(e.operand.token.text), ValueIn(w, mem, e);
              && z.Answer? && z.value.kind == l.kind
              && z.value.bits == if |l.bytes| > 8 || l.isString then w.address(e.operand.token.text) else FromLE(l.bytes)
    ensures e.Paren? ==> ValueIn(w, mem, e) == ValueIn(w, mem, e.inner)
  {
    hide SE.ContextOk, FromLE, Contents, SE.Read;
    if S.IsVariable(w.names, e) {
      var id := w.names[e.operand.token.text];
      if id in w.ctx.env.vars {
        StoredTakes(w.ctx, mem, id, 0);
      }
    } else if e.Leaf? {
      var bytes := w.decode(e.operand.token.text).bytes;
      assert bytes[0..|bytes|] == bytes;
    }
  }

  // ----- assignments -----

  /** What an assignment operator makes of its variable and a value. */
  ghost predicate Assigned(op: Symbol, ctx: SE.Context, mem: Memory, id: Word, v: SE.Cell, effect: E.Effect)
    requires SE.ContextOk(ctx) && |mem| == ctx.space.end && id in ctx.env.vars && v.Value?
    requires op == Set || Combining(op).Some?
  {
    if op == Set then effect.Wrote? && Takes(ctx, mem, id, v.bits, effect.mem)
    else if Combining(op).value in {Over, Percent} && v.bits == 0 then effect == E.Failed(E.DividesByZero)
    else
      && effect.Wrote?
      && exists x ::
           && Gives(Combining(op).value, BothSigned(ctx.env.vars[id].kind, v.kind), Contents(ctx, mem, id), v.bits, x)
           && Takes(ctx, mem, id, x, effect.mem)
  }

  lemma CombiningCode(op: Symbol)
    ensures Combining(op).Some? ==> T.OpCodeOf(op) == T.OpCodeOf(Combining(op).value) != Pseudo.Nop
    ensures op == Set ==> T.OpCodeOf(op) == Pseudo.Nop
  {
  }

  lemma CombiningMeans(op: Symbol)
    ensures Combining(op).Some? ==> HasMeaning(Combining(op).value)
  {
  }

  lemma AssigningSymbols(op: Symbol)
    ensures Info(op).kind == AssignmentOperator && (T.OpCodeOf(op) == Pseudo.Nop || (Pseudo.IsBinary(T.OpCodeOf(op)) && SE.IsCovered(T.OpCodeOf(op))))
       <==> op == Set || Combining(op).Some?
  {
  }

  lemma WrittenAssigns(op: Symbol, ctx: SE.Context, mem: Memory, id: Word, v: SE.Cell)
    requires SE.ContextOk(ctx) && |mem| == ctx.space.end && id in ctx.env.vars && v.Value?
    requires op == Set || Combining(op).Some?
    ensures var code := T.OpCodeOf(op); code == Pseudo.Nop || (Pseudo.IsBinary(code) && SE.IsCovered(code))
    ensures Assigned(op, ctx, mem, id, v, L.Written(ctx, mem, id, T.OpCodeOf(op), v))
  {
    hide SE.ContextOk, SE.Apply, SE.Stored, T.OpCodeOf, Combining, HasMeaning, Gives, Takes, Contents, SE.CellOk, SE.Read, E.VariableCell,
         Pseudo.IsBinary;
    CombiningCode(op);
    CombiningMeans(op);
    AssigningSymbols(op);
    StoredTakes(ctx, mem, id, v.bits);
    if op != Set {
      var base, was := Combining(op).value, SE.Value(Contents(ctx, mem, id), ctx.env.vars[id].kind);
      SymbolApplied(base, was, v);
      var r := SE.Apply(T.OpCodeOf(base), was, v);
      if r.Some? {
        StoredTakes(ctx, mem, id, r.value.bits);
      }
    }
  }

  /** The variable that the left side of an assignment names. */
  function VariableOf(names: T.Names, l: P.Tree): Word
    requires S.IsVariable(names, S.Bare(l))
  {
    names[S.Bare(l).operand.token.text]
  }

  lemma {:induction false} SidesDiffer(names: T.Names, ctx: SE.Context, e: P.Tree)
    ensures L.Operates(names, e) ==> !S.IsAssignment(S.Bare(e))
    ensures L.Stores(names, ctx, e) ==> S.IsAssignment(S.Bare(e)) && S.IsVariable(names, S.Bare(S.Bare(e).left))
    ensures L.Stores(names, ctx, e) ==> L.TargetOf(names, ctx, e) == VariableOf(names, S.Bare(e).left)
    decreases e
  {
    hide T.OpCodeOf, Pseudo.IsBinary;
    if e.Paren? {
      SidesDiffer(names, ctx, e.inner);
    }
  }

  function EffectOf(w: Source, mem: Memory, e: P.Tree): E.Effect
    requires MemoryOf(w, mem) && L.Stores(w.names, w.ctx, e)
  {
    L.TreeEffect(w.names, w.ctx, mem, w.decode, w.address, e)
  }

  /**
   * An assignment is one of = and the compound operators, to a variable, of an expression or of another assignment. It stores the value, or
   * what the operator says of the variable's number and the value; the value of an inner assignment is what its variable then holds.
   */
  lemma AssignmentMeaning(w: Source, mem: Memory, op: Symbol, l: P.Tree, r: P.Tree)
    requires MemoryOf(w, mem)
    ensures L.Stores(w.names, w.ctx, P.Infix(op, l, r))
       <==> && (op == Set || Combining(op).Some?)
            && S.IsVariable(w.names, S.Bare(l)) && VariableOf(w.names, l) in w.ctx.env.vars
            && (L.Operates(w.names, r) || L.Stores(w.names, w.ctx, r))
    ensures L.Stores(w.names, w.ctx, P.Infix(op, l, r)) && L.Operates(w.names, r) ==>
              var v, effect := ValueIn(w, mem, r), EffectOf(w, mem, P.Infix(op, l, r));
              if !v.Answer? then effect == E.Failed(v) else Assigned(op, w.ctx, mem, VariableOf(w.names, l), v.value, effect)
    ensures L.Stores(w.names, w.ctx, P.Infix(op, l, r)) && L.Stores(w.names, w.ctx, r) ==>
              var inner, effect := EffectOf(w, mem, r), EffectOf(w, mem, P.Infix(op, l, r));
              && S.Bare(r).Infix? && S.IsVariable(w.names, S.Bare(S.Bare(r).left)) && VariableOf(w.names, S.Bare(r).left) in w.ctx.env.vars
              && if inner.Failed? then effect == inner
                 else
                   var id := VariableOf(w.names, S.Bare(r).left);
                   && MemoryOf(w, inner.mem)
                   && Assigned(op, w.ctx, inner.mem, VariableOf(w.names, l),
                               SE.Value(Contents(w.ctx, inner.mem, id), w.ctx.env.vars[id].kind), effect)
  {
    hide SE.ContextOk, T.OpCodeOf, Combining, Assigned, L.Written, Contents, SE.CellOk, SE.Read, Pseudo.IsBinary, L.Operates;
    AssigningSymbols(op);
    SidesDiffer(w.names, w.ctx, r);
    if L.Stores(w.names, w.ctx, P.Infix(op, l, r)) {
      var id := VariableOf(w.names, l);
      if L.Operates(w.names, r) {
        var v := ValueIn(w, mem, r);
        if v.Answer? {
          WrittenAssigns(op, w.ctx, mem, id, v.value);
        }
      } else {
        var inner := EffectOf(w, mem, r);
        if inner.Wrote? {
          var other := VariableOf(w.names, S.Bare(r).left);
          StoredTakes(w.ctx, inner.mem, other, 0);
          WrittenAssigns(op, w.ctx, inner.mem, id, SE.Value(Contents(w.ctx, inner.mem, other), w.ctx.env.vars[other].kind));
        }
      }
    }
  }

  // ----- the operators that have no value here -----

  /** The operation that is emitted for an operator whose result is not part of this model. */
  function Unvalued(op: Symbol): Option<Pseudo.PseudoOpCode> {
    match op
    case NotU => Some(Pseudo.PseudoOpCode.Not)
    case StarU => Some(Pseudo.Dereference)
    case AmpersandU => Some(Pseudo.GetPointer)
    case IncrementU => Some(Pseudo.PrefixIncrement)
    case DecrementU => Some(Pseudo.PrefixDecrement)
    case UIncrement => Some(Pseudo.PostfixIncrement)
    case UDecrement => Some(Pseudo.PostfixDecrement)
    case Power => Some(Pseudo.Exponentiate)
    case _ => None
  }

  predicate Known(names: T.Names, g: PS.Group) {
    g.Simple? && g.token.kind == Identifier && g.token.text in names
  }

  function UseOf(names: T.Names, g: PS.Group): Pseudo.PseudoOp
    requires Known(names, g)
  {
    Pseudo.PseudoOp(Pseudo.Use, names[g.token.text], Pseudo.Nop)
  }

  lemma NameEmits(names: T.Names, g: PS.Group, code: seq<Pseudo.PseudoOp>, constants: seq<Text>)
    requires Known(names, g)
    ensures var n := ST.NodeOf(P.Leaf(g)); n.Built? && T.Analyzed(names, n.value, code, constants) == T.Emission(code + [UseOf(names, g)], constants)
    ensures P.TreeOk(P.Leaf(g), false) && S.OfTokens(P.Leaf(g))
  {
  }

  function OperationNode(op: Symbol, children: seq<ST.Node>): ST.Node {
    ST.Node(ST.Operation, Token(Operator, Sym(op)), children)
  }

  lemma UnaryNodeEmits(names: T.Names, op: Symbol, g: PS.Group, constants: seq<Text>)
    requires Unvalued(op).Some? && op != Power && Known(names, g) && ST.NodeOf(P.Leaf(g)).Built?
    ensures T.Analyzed(names, OperationNode(op, [ST.NodeOf(P.Leaf(g)).value]), [], constants)
         == T.Emission([UseOf(names, g), Pseudo.PseudoOp(Unvalued(op).value, 0, Pseudo.Nop)], constants)
  {
    hide ST.NodeOf, UseOf, Known;
    var x := ST.NodeOf(P.Leaf(g)).value;
    var node := OperationNode(op, [x]);
    NameEmits(names, g, [], constants);
    assert T.Analyzed(names, node, [], constants) == T.AnalyzedOperation(names, node, op, [], constants);
    assert [] + [UseOf(names, g)] == [UseOf(names, g)];
  }

  lemma PowerNodeEmits(names: T.Names, g: PS.Group, h: PS.Group, constants: seq<Text>)
    requires Known(names, g) && Known(names, h) && ST.NodeOf(P.Leaf(g)).Built? && ST.NodeOf(P.Leaf(h)).Built?
    ensures T.Analyzed(names, OperationNode(Power, [ST.NodeOf(P.Leaf(g)).value, ST.NodeOf(P.Leaf(h)).value]), [], constants)
         == T.Emission([UseOf(names, g), UseOf(names, h), Pseudo.PseudoOp(Pseudo.Exponentiate, 0, Pseudo.Nop)], constants)
  {
    hide ST.NodeOf, Known, UseOf;
    var node := OperationNode(Power, [ST.NodeOf(P.Leaf(g)).value, ST.NodeOf(P.Leaf(h)).value]);
    var u, v := UseOf(names, g), UseOf(names, h);
    NameEmits(names, g, [], constants);
    assert [] + [u] == [u];
    NameEmits(names, h, [u], constants);
    assert T.Analyzed(names, node, [], constants) == T.AnalyzedOperation(names, node, Power, [], constants);
  }

  lemma UsesJoined(names: T.Names, g: PS.Group, h: PS.Group, compound: Pseudo.PseudoOpCode)
    requires Known(names, g) && Known(names, h)
    ensures var u, v := UseOf(names, g), UseOf(names, h);
            T.Closed(T.Opened([u]), [v], compound) == [u, v, Pseudo.PseudoOp(Pseudo.Assign, 0, compound)]
  {
  }

  lemma AssignmentCode(op: Symbol)
    requires op == SetPower || op == SetTilde
    ensures Info(op).kind == AssignmentOperator && op != Field && op != PointerField
    ensures T.OpCodeOf(op) == if op == SetPower then Pseudo.Exponentiate else Pseudo.BitNot
  {
  }

  lemma AssignmentNodeEmits(names: T.Names, op: Symbol, g: PS.Group, h: PS.Group, constants: seq<Text>)
    requires (op == SetPower || op == SetTilde) && Known(names, g) && Known(names, h)
    requires ST.NodeOf(P.Leaf(g)).Built? && ST.NodeOf(P.Leaf(h)).Built?
    ensures var z := Pseudo.PseudoOp(Pseudo.Assign, 0, if op == SetPower then Pseudo.Exponentiate else Pseudo.BitNot);
            T.Analyzed(names, OperationNode(op, [ST.NodeOf(P.Leaf(g)).value, ST.NodeOf(P.Leaf(h)).value]), [], constants)
            == T.Emission([UseOf(names, g), UseOf(names, h), z], constants)
  {
    hide ST.NodeOf, Known, UseOf, T.Closed, T.Opened, T.OpCodeOf, Info;
    AssignmentCode(op);
    var node := OperationNode(op, [ST.NodeOf(P.Leaf(g)).value, ST.NodeOf(P.Leaf(h)).value]);
    var u, v := UseOf(names, g), UseOf(names, h);
    NameEmits(names, h, [], constants);
    NameEmits(names, g, [], constants);
    assert [] + [u] == [u] && [] + [v] == [v];
    UsesJoined(names, g, h, if op == SetPower then Pseudo.Exponentiate else Pseudo.BitNot);
    assert T.Analyzed(names, node, [], constants) == T.AnalyzedOperation(names, node, op, [], constants);
  }

  /** Written before or behind a name, such an operator is emitted behind the use of the name. */
  lemma UnvaluedEmitted(names: T.Names, op: Symbol, g: PS.Group, constants: seq<Text>)
    requires Unvalued(op).Some? && op != Power && Known(names, g)
    ensures var z := Pseudo.PseudoOp(Unvalued(op).value, 0, Pseudo.Nop);
            if op == UIncrement || op == UDecrement then
              var n := ST.NodeOf(P.Suffix(op, P.Leaf(g)));
              n.Built? && T.Analyzed(names, n.value, [], constants) == T.Emission([UseOf(names, g), z], constants)
            else S.Translation(names, RT.SourceOf(P.Prefix(op, P.Leaf(g))), constants) == T.Emission([UseOf(names, g), z], constants)
  {
    hide S.Translation, RT.SourceOf, T.Analyzed, Known, UseOf;
    NameEmits(names, g, [], constants);
    UnaryNodeEmits(names, op, g, constants);
    if op != UIncrement && op != UDecrement {
      S.FrontEnd(names, P.Prefix(op, P.Leaf(g)), constants);
    }
  }

  /** Written between names, it is emitted behind the uses of both; x ^= y and x ~= y carry theirs along. */
  lemma UnvaluedBetween(names: T.Names, op: Symbol, g: PS.Group, h: PS.Group, constants: seq<Text>)
    requires op in {Power, SetPower, SetTilde} && Known(names, g) && Known(names, h)
    ensures var z := if op == Power then Pseudo.PseudoOp(Pseudo.Exponentiate, 0, Pseudo.Nop)
                     else Pseudo.PseudoOp(Pseudo.Assign, 0, if op == SetPower then Pseudo.Exponentiate else Pseudo.BitNot);
            S.Translation(names, RT.SourceOf(P.Infix(op, P.Leaf(g), P.Leaf(h))), constants)
            == T.Emission([UseOf(names, g), UseOf(names, h), z], constants)
  {
    hide S.Translation, RT.SourceOf, T.Analyzed, Known, UseOf;
    NameEmits(names, g, [], constants);
    NameEmits(names, h, [], constants);
    if op == Power {
      PowerNodeEmits(names, g, h, constants);
    } else {
      AssignmentNodeEmits(names, op, g, h, constants);
    }
    S.FrontEnd(names, P.Infix(op, P.Leaf(g), P.Leaf(h)), constants);
  }

  /** x[i]: both uses, then the access by argument. */
  lemma IndexEmitted(names: T.Names, g: PS.Group, h: PS.Group, constants: seq<Text>)
    requires Known(names, g) && Known(names, h)
    ensures var n := ST.NodeOf(P.Access(P.Leaf(g), [P.Leaf(h)]));
            n.Built? && T.Analyzed(names, n.value, [], constants)
                        == T.Emission([UseOf(names, g), UseOf(names, h), Pseudo.PseudoOp(Pseudo.GetByArgument, 0, Pseudo.Nop)], constants)
  {
    hide UseOf, ST.NodeOf, T.Analyzed;
    NameEmits(names, g, [], constants);
    NameEmits(names, h, [UseOf(names, g)], constants);
    var u, v := UseOf(names, g), UseOf(names, h);
    assert [] + [u] == [u] && [u] + [v] == [u, v];
    var x, y := ST.NodeOf(P.Leaf(g)).value, ST.NodeOf(P.Leaf(h)).value;
    IndexNode(g, h);
    IndexAnalyzed(names, x, y, u, v, constants);
  }

  function IndexOf(x: ST.Node, y: ST.Node): ST.Node {
    ST.Composed(ST.AccessChain, [x, ST.Composed(ST.Grouped(PS.DataAccess), [ST.Composed(ST.Grouped(PS.Argument), [y])])])
  }

  lemma IndexNode(g: PS.Group, h: PS.Group)
    requires g.Simple? && h.Simple? && g.token.kind == Identifier && h.token.kind == Identifier
    ensures ST.NodeOf(P.Leaf(g)).Built? && ST.NodeOf(P.Leaf(h)).Built?
    ensures ST.NodeOf(P.Access(P.Leaf(g), [P.Leaf(h)])) == ST.Built(IndexOf(ST.NodeOf(P.Leaf(g)).value, ST.NodeOf(P.Leaf(h)).value))
  {
    var x, y := ST.NodeOf(P.Leaf(g)).value, ST.NodeOf(P.Leaf(h)).value;
    assert [P.Leaf(h)][1..] == [];
    var arg := ST.Composed(ST.Grouped(PS.Argument), [y]);
    assert ST.NodesOf([]) == ST.Built([]);
    assert ST.NodesOf([P.Leaf(h)]) == ST.Built([arg]) by { assert [arg] + [] == [arg]; }
  }

  lemma IndexAnalyzed(names: T.Names, x: ST.Node, y: ST.Node, u: Pseudo.PseudoOp, v: Pseudo.PseudoOp, constants: seq<Text>)
    requires T.Analyzed(names, x, [], constants) == T.Emission([u], constants)
    requires T.Analyzed(names, y, [u], constants) == T.Emission([u, v], constants)
    ensures T.Analyzed(names, IndexOf(x, y), [], constants)
         == T.Emission([u, v, Pseudo.PseudoOp(Pseudo.GetByArgument, 0, Pseudo.Nop)], constants)
  {
    var arg := ST.Composed(ST.Grouped(PS.Argument), [y]);
    var access := ST.Composed(ST.Grouped(PS.DataAccess), [arg]);
    One(names, y, [u], constants);
    assert T.Analyzed(names, arg, [u], constants) == T.Emission([u, v], constants);
    One(names, arg, [u], constants);
    assert T.Analyzed(names, access, [u], constants) == T.Emission([u, v] + [Pseudo.Op(Pseudo.GetByArgument)], constants);
    One(names, access, [u], constants);
    assert [x, access][1..] == [access];
    assert T.AnalyzedAll(names, [x, access], [], constants) == T.AnalyzedAll(names, [access], [u], constants);
  }

  lemma One(names: T.Names, n: ST.Node, code: seq<Pseudo.PseudoOp>, constants: seq<Text>)
    ensures T.AnalyzedAll(names, [n], code, constants) == T.Analyzed(names, n, code, constants)
  {
    hide T.Analyzed;
    assert [n][1..] == [];
    var r := T.Analyzed(names, n, code, constants);
    if r.Emission? {
      assert T.AnalyzedAll(names, [], r.code, r.constants) == r;
    }
  }
}
