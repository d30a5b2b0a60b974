/** Expression and assignment trees: their pseudo code, their meaning, and the code generated for them. */
module Expressions {
  import opened Words
  import opened ByteCode
  import opened Machine
  import opened Pseudo
  import opened CodegenSpec
  import opened RegisterBalance
  import opened StackEvaluator
  import opened CodegenCorrect
  import opened CodegenRun
  import B = ByteMachine

  datatype Expr = Var(id: Word) | Const(k: Word) | Bin(op: PseudoOpCode, left: Expr, right: Expr) | Un(op: PseudoOpCode, arg: Expr)

  predicate OperatorsOk(e: Expr) {
    match e
    case Bin(op, l, r) => IsBinary(op) && OperatorsOk(l) && OperatorsOk(r)
    case Un(op, a) => (op == Negative || op == BitNot) && OperatorsOk(a)
    case _ => true
  }

  predicate Covered(e: Expr) {
    match e
    case Bin(op, l, r) => IsCovered(op) && Covered(l) && Covered(r)
    case Un(_, a) => Covered(a)
    case _ => true
  }

  /** Post-order. */
  function Compile(e: Expr): seq<PseudoOp> {
    match e
    case Var(id) => [PseudoOp(Use, id, Nop)]
    case Const(k) => [PseudoOp(UseConstant, k, Nop)]
    case Bin(op, l, r) => Compile(l) + Compile(r) + [Op(op)]
    case Un(op, a) => Compile(a) + [Op(op)]
  }

  // ----- eager meaning -----

  datatype Answer = Answer(value: Cell) | DividesByZero | IllTyped

  function VariableCell(ctx: Context, id: Word): Cell
    requires id in ctx.env.vars
  {
    var v := ctx.env.vars[id]; Place(VariableArg(v), v.kind, v.size)
  }

  function ConstantCell(ctx: Context, k: Word): Cell
    requires k < |ctx.env.constants|
  {
    var c := ctx.env.constants[k]; Literal(k, c.kind, c.size)
  }

  function ApplyAnswers(op: PseudoOpCode, a: Answer, b: Answer): Answer
    requires IsBinary(op) && IsCovered(op)
    requires a.Answer? ==> a.value.Value?
    requires b.Answer? ==> b.value.Value?
  {
    if !a.Answer? then a
    else if !b.Answer? then b
    else
      match Apply(op, a.value, b.value)
      case Some(v) => Answer(v)
      case None => DividesByZero
  }

  function ApplyAnswer(op: PseudoOpCode, a: Answer): Answer
    requires op == Negative || op == BitNot
    requires a.Answer? ==> a.value.Value?
  {
    if !a.Answer? then a
    else if op == Negative && a.value.kind == UInt then IllTyped
    else Answer(ApplyOnce(op, a.value))
  }

  /** The value of an expression in a memory: every operand is read when it is met, left before right. */
  function Evaluate(ctx: Context, mem: Memory, e: Expr): (r: Answer)
    requires ContextOk(ctx) && |mem| == ctx.space.end && OperatorsOk(e) && Covered(e)
    ensures r.Answer? ==> r.value.Value?
  {
    match e
    case Var(id) => if id in ctx.env.vars then Answer(Read(ctx, mem, VariableCell(ctx, id))) else IllTyped
    case Const(k) => if k < |ctx.env.constants| then Answer(Read(ctx, mem, ConstantCell(ctx, k))) else IllTyped
    case Bin(op, l, r) => ApplyAnswers(op, Evaluate(ctx, mem, l), Evaluate(ctx, mem, r))
    case Un(op, a) => ApplyAnswer(op, Evaluate(ctx, mem, a))
  }

  // ----- the stack machine computes the meaning -----

  ghost predicate AllStraight(ops: seq<PseudoOp>) {
    forall k :: 0 <= k < |ops| ==> Straight(ops[k])
  }

  lemma StraightIn(ops: seq<PseudoOp>)
    requires AllStraight(ops)
    ensures forall op :: op in ops ==> Straight(op)
  {
  }

  lemma {:induction false} CompileStraight(e: Expr)
    requires OperatorsOk(e) && Covered(e)
    ensures AllStraight(Compile(e))
  {
    match e
    case Var(id) =>
    case Const(k) =>
    case Bin(op, l, r) =>
      CompileStraight(l);
      CompileStraight(r);
      assert Straight(Op(op));
    case Un(op, a) =>
      CompileStraight(a);
      assert Straight(Op(op));
  }

  function RunPseudo(ctx: Context, s: EState, ops: seq<PseudoOp>): Result
    requires StateOk(ctx, s) && AllStraight(ops)
  {
    StraightIn(ops);
    EvalAll(ctx, s, ops)
  }

  lemma {:induction false} RunAppend(ctx: Context, s: EState, x: seq<PseudoOp>, y: seq<PseudoOp>)
    requires StateOk(ctx, s) && AllStraight(x) && AllStraight(y)
    ensures AllStraight(x + y)
    ensures match RunPseudo(ctx, s, x) {
              case Done(s') => StateOk(ctx, s') && RunPseudo(ctx, s, x + y) == RunPseudo(ctx, s', y)
              case DivisionByZero => RunPseudo(ctx, s, x + y) == DivisionByZero
              case Stuck => RunPseudo(ctx, s, x + y) == Stuck
            }
    decreases |x|
  {
    hide EvalOp, StateOk, Straight;
    if x == [] {
      assert x + y == y;
    } else {
      assert (x + y)[0] == x[0] && (x + y)[1..] == x[1..] + y;
      EvalKeepsOk(ctx, s, x[0]);
      var r := EvalOp(ctx, s, x[0]);
      if r.Done? {
        RunAppend(ctx, r.state, x[1..], y);
      }
    }
  }

  lemma RunOne(ctx: Context, s: EState, op: PseudoOp)
    requires StateOk(ctx, s) && Straight(op)
    ensures AllStraight([op]) && RunPseudo(ctx, s, [op]) == EvalOp(ctx, s, op)
  {
    hide EvalOp, StateOk;
    EvalKeepsOk(ctx, s, op);
    var r := EvalOp(ctx, s, op);
    assert [op][1..] == [];
    if r.Done? {
      assert EvalAll(ctx, r.state, []) == Done(r.state);
    }
  }

  /** Running an expression's code pushed one operand, whose value is the given one. */
  ghost predicate Pushed(ctx: Context, s: EState, r: Result, a: Answer) {
    match a
    case Answer(v) =>
      && StateOk(ctx, s) && r.Done? && StateOk(ctx, r.state) && r.state.mem == s.mem
      && |r.state.stack| == |s.stack| + 1 && r.state.stack[..|s.stack|] == s.stack
      && CellOk(ctx, Top(r.state)) && Read(ctx, s.mem, Top(r.state)) == v
    case DividesByZero => r == DivisionByZero
    case IllTyped => r == Stuck
  }

  lemma PushedResult(ctx: Context, s: EState, r: Result, a: Answer)
    requires Pushed(ctx, s, r, a)
    ensures a.Answer? ==> r.Done? && StateOk(ctx, r.state) && r.state.mem == s.mem
    ensures a.DividesByZero? ==> r == DivisionByZero
    ensures a.IllTyped? ==> r == Stuck
  {
  }

  lemma LeafPushed(ctx: Context, s: EState, e: Expr)
    requires StateOk(ctx, s) && (e.Var? || e.Const?) && AllStraight(Compile(e))
    ensures Pushed(ctx, s, RunPseudo(ctx, s, Compile(e)), Evaluate(ctx, s.mem, e))
  {
    hide ContextOk, CellOk, Fetch;
    RunOne(ctx, s, Compile(e)[0]);
    CellsOk(ctx);
    if e.Var? && e.id in ctx.env.vars {
      PushKeepsOk(ctx, s, 0, VariableCell(ctx, e.id));
    } else if e.Const? && e.k < |ctx.env.constants| {
      PushKeepsOk(ctx, s, 0, ConstantCell(ctx, e.k));
    }
    assert s.stack[..|s.stack| - 0] == s.stack;
  }

  lemma BinaryPushed(ctx: Context, s: EState, r1: Result, r2: Result, op: PseudoOpCode, a: Answer, b: Answer)
    requires IsBinary(op) && IsCovered(op) && Straight(Op(op)) && a.Answer? && a.value.Value? && (b.Answer? ==> b.value.Value?)
    requires Pushed(ctx, s, r1, a) && r1.Done? && Pushed(ctx, r1.state, r2, b) && (b.Answer? ==> r2.Done? && StateOk(ctx, r2.state))
    ensures b.Answer? ==> Pushed(ctx, s, EvalOp(ctx, r2.state, Op(op)), ApplyAnswers(op, a, b))
    ensures !b.Answer? ==> Pushed(ctx, s, r2, ApplyAnswers(op, a, b))
  {
    hide ContextOk, CellOk, Fetch, Apply, IsBinary, Straight, EvalOp, Drop;
    if b.Answer? {
      var s2 := r2.state;
      BinaryRuns(ctx, s2, op);
      assert Second(s2) == r2.state.stack[..|r1.state.stack|][|r1.state.stack| - 1] == Top(r1.state);
      DropTwo(s2);
      assert Drop(s2, 2).stack == s.stack by {
        assert s2.stack[..|s2.stack| - 2] == s2.stack[..|r1.state.stack|][..|s.stack|];
      }
      ApplyKind(op, a.value, b.value);
      var v := Apply(op, a.value, b.value);
      if v.Some? {
        ValuePushed(ctx, s2, 2, v.value);
      }
    }
  }

  lemma DropTwo(s: EState)
    requires |s.stack| >= 2
    ensures Drop(s, 2) == EState(s.stack[..|s.stack| - 2], s.mem)
  {
  }

  lemma BinaryRuns(ctx: Context, s: EState, op: PseudoOpCode)
    requires StateOk(ctx, s) && IsBinary(op) && IsCovered(op) && Straight(Op(op))
    ensures EvalOp(ctx, s, Op(op)) == EvalBinaryOp(ctx, s, op)
  {
    hide StateOk, EvalBinaryOp, EvalAssignment;
    NotAnOperand(op);
  }

  lemma NotAnOperand(op: PseudoOpCode)
    requires IsBinary(op) || op == Negative || op == BitNot
    ensures op !in {Use, UseConstant, Assign, AssignR, Label, Jump, JumpIf, JumpNIf}
  {
  }

  lemma ValuePushed(ctx: Context, s: EState, n: nat, v: Cell)
    requires StateOk(ctx, s) && n <= |s.stack| && v.Value? && v.kind != Real
    ensures var r := PushCell(Drop(s, n), v);
            && StateOk(ctx, r.state) && Top(r.state) == v && CellOk(ctx, v) && Read(ctx, s.mem, v) == v
            && r.state.stack[..|s.stack| - n] == Drop(s, n).stack
  {
    PushKeepsOk(ctx, s, n, v);
  }

  lemma UnaryPushed(ctx: Context, s: EState, r1: Result, op: PseudoOpCode, a: Answer)
    requires (op == Negative || op == BitNot) && (a.Answer? ==> a.value.Value?) && Pushed(ctx, s, r1, a)
    ensures a.Answer? ==> Pushed(ctx, s, EvalOp(ctx, r1.state, Op(op)), ApplyAnswer(op, a))
    ensures !a.Answer? ==> Pushed(ctx, s, r1, ApplyAnswer(op, a))
  {
    hide ContextOk, CellOk, Fetch, EvalUnary, IsBinary;
    if a.Answer? {
      NotAnOperand(op);
      NotBinary(op);
      KindIsInteger(ctx, Top(r1.state));
      ValuePushed(ctx, r1.state, 1, ApplyOnce(op, a.value));
    }
  }

  lemma NotBinary(op: PseudoOpCode)
    requires op == Negative || op == BitNot
    ensures !IsBinary(op)
  {
  }

  /** Reading operands late, when an operator consumes them, gives the values they had when they were met. */
  lemma {:induction false} LazyIsEager(ctx: Context, s: EState, e: Expr)
    requires StateOk(ctx, s) && OperatorsOk(e) && Covered(e)
    ensures AllStraight(Compile(e))
    ensures Pushed(ctx, s, RunPseudo(ctx, s, Compile(e)), Evaluate(ctx, s.mem, e))
    decreases e
  {
    hide Pushed, EvalOp, ApplyAnswers, ApplyAnswer, RunPseudo, ContextOk, CellOk;
    CompileStraight(e);
    match e {
      case Var(_) => LeafPushed(ctx, s, e);
      case Const(_) => LeafPushed(ctx, s, e);
      case Bin(op, l, r) => LazyBinary(ctx, s, op, l, r);
      case Un(op, x) =>
        LazyIsEager(ctx, s, x);
        RunAppend(ctx, s, Compile(x), [Op(op)]);
        var r1, a := RunPseudo(ctx, s, Compile(x)), Evaluate(ctx, s.mem, x);
        PushedResult(ctx, s, r1, a);
        if a.Answer? {
          RunOne(ctx, r1.state, Op(op));
        }
        UnaryPushed(ctx, s, r1, op, a);
    }
  }

  lemma {:induction false} LazyBinary(ctx: Context, s: EState, op: PseudoOpCode, l: Expr, r: Expr)
    requires StateOk(ctx, s) && OperatorsOk(Bin(op, l, r)) && Covered(Bin(op, l, r))
    ensures AllStraight(Compile(Bin(op, l, r)))
    ensures Pushed(ctx, s, RunPseudo(ctx, s, Compile(Bin(op, l, r))), Evaluate(ctx, s.mem, Bin(op, l, r)))
    decreases Bin(op, l, r), 0
  {
    hide Pushed, EvalOp, ApplyAnswers, RunPseudo, ContextOk, CellOk, IsBinary;
    CompileStraight(l);
    CompileStraight(r);
    OpStraight(op);
    LazyIsEager(ctx, s, l);
    RunAppend(ctx, s, Compile(l), Compile(r));
    RunAppend(ctx, s, Compile(l) + Compile(r), [Op(op)]);
    var a, b := Evaluate(ctx, s.mem, l), Evaluate(ctx, s.mem, r);
    var r1 := RunPseudo(ctx, s, Compile(l));
    PushedResult(ctx, s, r1, a);
    if a.Answer? {
      LazyIsEager(ctx, r1.state, r);
      var r2 := RunPseudo(ctx, r1.state, Compile(r));
      PushedResult(ctx, r1.state, r2, b);
      if b.Answer? {
        RunOne(ctx, r2.state, Op(op));
      }
      assert Straight([Op(op)][0]);
      BinaryPushed(ctx, s, r1, r2, op, a, b);
    } else {
      FailurePassesOn(ctx, s, r1, op, a, b);
    }
  }

  lemma FailurePassesOn(ctx: Context, s: EState, r: Result, op: PseudoOpCode, a: Answer, b: Answer)
    requires IsBinary(op) && IsCovered(op) && !a.Answer? && (b.Answer? ==> b.value.Value?) && Pushed(ctx, s, r, a)
    ensures Pushed(ctx, s, r, ApplyAnswers(op, a, b))
  {
  }

  lemma OpStraight(op: PseudoOpCode)
    requires (IsBinary(op) || op == Negative || op == BitNot) && IsCovered(op)
    ensures Straight(Op(op)) && AllStraight([Op(op)])
  {
  }

  // ----- assignments -----

  /** target compound= source; compound Nop is a plain assignment. The source may be an assignment itself. */
  datatype Assignment = Assignment(target: Word, compound: PseudoOpCode, source: Source)
  datatype Source = Plain(expr: Expr) | Chain(inner: Assignment)

  predicate AssignmentOk(ctx: Context, a: Assignment) {
    && a.target in ctx.env.vars && (a.compound == Nop || (IsBinary(a.compound) && IsCovered(a.compound)))
    && match a.source
       case Plain(e) => OperatorsOk(e) && Covered(e)
       case Chain(inner) => AssignmentOk(ctx, inner)
  }

  /** The target is used first, then the source is computed; an inner assignment leaves its value. */
  function CompileAssignment(a: Assignment, code: PseudoOpCode): seq<PseudoOp> {
    [PseudoOp(Use, a.target, Nop)]
    + (match a.source
       case Plain(e) => Compile(e)
       case Chain(inner) => CompileAssignment(inner, AssignR))
    + [PseudoOp(code, 0, a.compound)]
  }

  datatype Effect = Wrote(mem: Memory) | Failed(answer: Answer)

  /** Stores the source, or the target combined with it. */
  function WriteTarget(ctx: Context, mem: Memory, a: Assignment, v: Cell): Effect
    requires ContextOk(ctx) && |mem| == ctx.space.end && AssignmentOk(ctx, a) && v.Value?
  {
    var target := VariableCell(ctx, a.target);
    if a.compound == Nop then Wrote(Stored(ctx, mem, target, v.bits))
    else
      match Apply(a.compound, Read(ctx, mem, target), v)
      case Some(w) => Wrote(Stored(ctx, mem, target, w.bits))
      case None => Failed(DividesByZero)
  }

  /** The memory after an assignment. The value of an inner assignment is its target, read back. */
  function RunAssignment(ctx: Context, mem: Memory, a: Assignment): (r: Effect)
    requires ContextOk(ctx) && |mem| == ctx.space.end && AssignmentOk(ctx, a)
    ensures r.Wrote? ==> |r.mem| == ctx.space.end
    ensures r.Failed? ==> !r.answer.Answer?
  {
    match a.source
    case Plain(e) =>
      var v := Evaluate(ctx, mem, e);
      if v.Answer? then WriteTarget(ctx, mem, a, v.value) else Failed(v)
    case Chain(inner) =>
      match RunAssignment(ctx, mem, inner)
      case Wrote(mem') => WriteTarget(ctx, mem', a, Read(ctx, mem', VariableCell(ctx, inner.target)))
      case Failed(answer) => Failed(answer)
  }

  /** Running an assignment's code from a stack: what is left on it and in memory. */
  ghost predicate Assigned(ctx: Context, s: EState, r: Result, a: Assignment, code: PseudoOpCode, effect: Effect)
    requires AssignmentOk(ctx, a)
  {
    match effect
    case Wrote(mem) =>
      && r == Done(EState(s.stack + if code == AssignR then [VariableCell(ctx, a.target)] else [], mem))
      && StateOk(ctx, r.state)
    case Failed(answer) => r == if answer.DividesByZero? then DivisionByZero else Stuck
  }

  lemma AssignOne(ctx: Context, s: EState, s2: EState, a: Assignment, code: PseudoOpCode, v: Cell)
    requires StateOk(ctx, s) && StateOk(ctx, s2) && AssignmentOk(ctx, a) && (code == Assign || code == AssignR)
    requires |s2.stack| == |s.stack| + 2 && s2.stack[..|s.stack|] == s.stack
    requires Second(s2) == VariableCell(ctx, a.target)
    requires CellOk(ctx, Top(s2)) && Read(ctx, s2.mem, Top(s2)) == v && v.Value?
    ensures Straight(PseudoOp(code, 0, a.compound))
    ensures Assigned(ctx, s, EvalOp(ctx, s2, PseudoOp(code, 0, a.compound)), a, code, WriteTarget(ctx, s2.mem, a, v))
  {
    hide ContextOk, CellOk, Fetch, Apply, Stored, IsBinary;
    CellsOk(ctx);
    var op, target := PseudoOp(code, 0, a.compound), VariableCell(ctx, a.target);
    assert Drop(s2, 2).stack == s.stack;
    EvalKeepsOk(ctx, s2, op);
    if a.compound != Nop {
      AfterOperator(ctx, s2, a.compound, target, v);
    }
  }

  /** The operator of a compound assignment leaves its result above the rest of the stack. */
  lemma AfterOperator(ctx: Context, s: EState, op: PseudoOpCode, target: Cell, v: Cell)
    requires StateOk(ctx, s) && |s.stack| >= 2 && Second(s) == target && IsBinary(op) && IsCovered(op)
    requires CellOk(ctx, Top(s)) && CellOk(ctx, target) && Read(ctx, s.mem, Top(s)) == v
    ensures EvalOperator(ctx, s, op) == match Apply(op, Read(ctx, s.mem, target), v)
                                        case Some(w) => Done(EState(Drop(s, 2).stack + [w], s.mem))
                                        case None => DivisionByZero
    ensures var w := Apply(op, Read(ctx, s.mem, target), v);
            w.Some? ==> w.value.Value? && CellOk(ctx, w.value) && Fetch(ctx, s.mem, w.value) == w.value.bits
  {
    hide ContextOk, Apply, IsBinary;
    CellsInState(ctx, s);
    KindIsInteger(ctx, target);
    KindIsInteger(ctx, Top(s));
    ApplyKind(op, Read(ctx, s.mem, target), v);
  }

  lemma {:induction false} AssignmentStraight(ctx: Context, a: Assignment, code: PseudoOpCode)
    requires AssignmentOk(ctx, a) && (code == Assign || code == AssignR)
    ensures AllStraight(CompileAssignment(a, code))
  {
    hide IsBinary;
    match a.source
    case Plain(e) => CompileStraight(e);
    case Chain(inner) => AssignmentStraight(ctx, inner, AssignR);
  }

  function WithTarget(ctx: Context, s: EState, id: Word): EState
    requires id in ctx.env.vars
  {
    EState(s.stack + [VariableCell(ctx, id)], s.mem)
  }

  lemma UseTarget(ctx: Context, s: EState, id: Word)
    requires StateOk(ctx, s) && id in ctx.env.vars
    ensures StateOk(ctx, WithTarget(ctx, s, id)) && AllStraight([PseudoOp(Use, id, Nop)])
    ensures RunPseudo(ctx, s, [PseudoOp(Use, id, Nop)]) == Done(WithTarget(ctx, s, id))
  {
    hide ContextOk, CellOk, RunPseudo;
    CellsOk(ctx);
    PushKeepsOk(ctx, s, 0, VariableCell(ctx, id));
    assert s.stack[..|s.stack| - 0] == s.stack;
    RunOne(ctx, s, PseudoOp(Use, id, Nop));
  }

  /** The last operation, after a source expression. */
  lemma SourcePushed(ctx: Context, s: EState, r: Result, a: Assignment, code: PseudoOpCode)
    requires StateOk(ctx, s) && AssignmentOk(ctx, a) && a.source.Plain? && (code == Assign || code == AssignR)
    requires Pushed(ctx, WithTarget(ctx, s, a.target), r, Evaluate(ctx, s.mem, a.source.expr))
    ensures !r.Done? ==> Assigned(ctx, s, r, a, code, RunAssignment(ctx, s.mem, a))
    ensures r.Done? ==>
              && StateOk(ctx, r.state) && Straight(PseudoOp(code, 0, a.compound))
              && Assigned(ctx, s, EvalOp(ctx, r.state, PseudoOp(code, 0, a.compound)), a, code, RunAssignment(ctx, s.mem, a))
  {
    hide ContextOk, CellOk, Fetch, IsBinary, WriteTarget, EvalOp, Straight, Evaluate;
    if r.Done? {
      var s1, s2 := WithTarget(ctx, s, a.target), r.state;
      assert s2.stack[..|s.stack|] == s2.stack[..|s1.stack|][..|s.stack|] == s.stack;
      assert Second(s2) == s2.stack[..|s1.stack|][|s.stack|] == VariableCell(ctx, a.target);
      AssignOne(ctx, s, s2, a, code, Evaluate(ctx, s.mem, a.source.expr).value);
    }
  }

  /** The last operation, after a nested assignment. */
  lemma SourceAssigned(ctx: Context, s: EState, r: Result, a: Assignment, code: PseudoOpCode)
    requires StateOk(ctx, s) && AssignmentOk(ctx, a) && a.source.Chain? && (code == Assign || code == AssignR)
    requires var inner := a.source.inner;
             Assigned(ctx, WithTarget(ctx, s, a.target), r, inner, AssignR, RunAssignment(ctx, s.mem, inner))
    ensures !r.Done? ==> Assigned(ctx, s, r, a, code, RunAssignment(ctx, s.mem, a))
    ensures r.Done? ==>
              && StateOk(ctx, r.state) && Straight(PseudoOp(code, 0, a.compound))
              && Assigned(ctx, s, EvalOp(ctx, r.state, PseudoOp(code, 0, a.compound)), a, code, RunAssignment(ctx, s.mem, a))
  {
    hide ContextOk, CellOk, Fetch, IsBinary, WriteTarget, EvalOp, Straight;
    if r.Done? {
      CellsInState(ctx, r.state);
      AssignOne(ctx, s, r.state, a, code, Read(ctx, r.state.mem, VariableCell(ctx, a.source.inner.target)));
    }
  }

  /** The stack machine performs assignments, nested ones included, as their meaning says. */
  lemma {:induction false} AssignmentMeaning(ctx: Context, s: EState, a: Assignment, code: PseudoOpCode)
    requires StateOk(ctx, s) && AssignmentOk(ctx, a) && (code == Assign || code == AssignR)
    ensures AllStraight(CompileAssignment(a, code))
    ensures Assigned(ctx, s, RunPseudo(ctx, s, CompileAssignment(a, code)), a, code, RunAssignment(ctx, s.mem, a))
    decreases a
  {
    hide EvalOp, RunPseudo, ContextOk, CellOk, IsBinary, WriteTarget, Pushed, Assigned, RunAssignment;
    AssignmentStraight(ctx, a, code);
    var use, last := PseudoOp(Use, a.target, Nop), PseudoOp(code, 0, a.compound);
    var middle := match a.source case Plain(e) => Compile(e) case Chain(inner) => CompileAssignment(inner, AssignR);
    var s1 := WithTarget(ctx, s, a.target);
    UseTarget(ctx, s, a.target);
    LastStraight(ctx, a, code);
    match a.source {
      case Plain(e) => LazyIsEager(ctx, s1, e);
      case Chain(inner) => AssignmentMeaning(ctx, s1, inner, AssignR);
    }
    RunAppend(ctx, s, [use], middle);
    RunAppend(ctx, s, [use] + middle, [last]);
    var r2 := RunPseudo(ctx, s1, middle);
    if a.source.Plain? {
      SourcePushed(ctx, s, r2, a, code);
    } else {
      SourceAssigned(ctx, s, r2, a, code);
    }
    if r2.Done? {
      RunOne(ctx, r2.state, last);
    }
  }

  lemma LastStraight(ctx: Context, a: Assignment, code: PseudoOpCode)
    requires AssignmentOk(ctx, a) && (code == Assign || code == AssignR)
    ensures AllStraight([PseudoOp(code, 0, a.compound)])
  {
  }
}
