/** Whole operations and whole translations refine the reference stack machine. */
module CodegenRun {
  import opened Words
  import opened ByteCode
  import opened Machine
  import opened Pseudo
  import opened CodegenSpec
  import opened RegisterBalance
  import opened StackEvaluator
  import opened CodegenCorrect
  import opened CodegenStatic
  import B = ByteMachine

  // ----- operators -----

  /** A computed result, in the left operand's register, is pushed. */
  lemma ResultRefines(ctx: Context, g: GState, g': GState, s: EState, c: B.Config, f: Frame, v: Cell)
    requires Refines(ctx, g, s, c) && Agrees(ctx.env, g') && g'.stack == g.stack + [f]
    requires CellOk(ctx, v) && v.Value? && Loaded(f) && f.dtype == v.kind
    requires f.data in Reserved(g) && f.data < |c.regs|
    ensures var c' := c.(regs := c.regs[f.data := v.bits]);
            forall pc :: Refines(ctx, g', PushCell(s, v).state, c'.(pc := pc))
    ensures var c' := c.(regs := c.regs[f.data := v.bits]); AllDenote(g'.stack, s.stack + [v], c'.regs)
  {
    hide ContextOk;
    var c' := c.(regs := c.regs[f.data := v.bits]);
    StillDenote(g.stack, s.stack, c, c', Owned(g.stack));
    DenotePush(g.stack, s.stack, c'.regs, f, v);
    PushKeepsOk(ctx, s, 0, v);
    assert s.stack[..|s.stack| - 0] == s.stack;
  }

  lemma ValueOk(ctx: Context, v: Cell)
    requires v.Value? && v.kind != Real
    ensures CellOk(ctx, v)
  {
  }

  lemma BinaryRefines(ctx: Context, g: GState, s: EState, c: B.Config, op: PseudoOpCode)
    returns (code: seq<Command>, o: Outcome<B.Config>)
    requires Refines(ctx, g, s, c) && IsBinary(op) && IsCovered(op) && Binary(ctx.env, g, op).Some?
    ensures Outcomes(ctx, g, Binary(ctx.env, g, op).value, s, EvalBinaryOp(ctx, s, op), c, code, o)
  {
    hide LoadBoth, Combine, Apply, Fetch, ContextOk, Denotes, AllDenote, Owned, Distinct, LineOk, Exec, IsBinary, CellOk;
    var x, g' := LoadBoth(ctx.env, g).value, Binary(ctx.env, g, op).value;
    var code1, c1 := LoadBothRefines(ctx, g, s, c);
    LoadBothAgrees(ctx.env, g);
    BinaryAgrees(ctx.env, g, op);
    var a, b := Read(ctx, s.mem, Second(s)), Read(ctx, s.mem, Top(s));
    var done := Combine(op, x.left, x.right).value;
    CombineMeans(ctx, op, x.left, x.right, c1, a, b);
    ResultInLeftRegister(op, x.left, x.right);
    code := code1 + done.0;
    ExecAppend(ctx, code1, done.0, c);
    o := Exec(ctx, done.0, c1);
    assert g'.code == g.code + code by {
      assert g'.code == x.rest.code + done.0;
    }
    if Apply(op, a, b).Some? {
      var v := Apply(op, a, b).value;
      ApplyKind(op, a, b);
      ValueOk(ctx, v);
      ResultRefines(ctx, x.rest, g', Drop(s, 2), c1, done.1, v);
    }
  }

  lemma UnaryRefines(ctx: Context, g: GState, s: EState, c: B.Config, op: PseudoOpCode)
    returns (code: seq<Command>, o: Outcome<B.Config>)
    requires Refines(ctx, g, s, c) && (op == Negative || op == BitNot) && Unary(ctx.env, g, op).Some?
    ensures Outcomes(ctx, g, Unary(ctx.env, g, op).value, s, EvalUnaryOp(ctx, s, op), c, code, o)
  {
    hide LoadOperand, Fetch, ContextOk, Denotes, AllDenote, Owned, Distinct, Exec, LogicCode, ArithmeticCode,
         B.Decode, EvalUnary;
    var x, g' := LoadOperand(ctx.env, g).value, Unary(ctx.env, g, op).value;
    var code1, c1 := LoadRefines(ctx, g, s, c);
    LoadAgrees(ctx.env, g);
    UnaryAgrees(ctx.env, g, op);
    var t, r := x.frame.dtype, x.frame.data;
    KindIsInteger(ctx, Top(s));
    CodeMeansUnary(op, t, r);
    var cmd := OperateOnce(if op == Negative then ArithmeticCode(op, t) else LogicCode(op, t), r);
    var v := ApplyOnce(op, Read(ctx, s.mem, Top(s)));
    ExecOne(ctx, cmd, c1);
    ExecAppend(ctx, code1, [cmd], c);
    code := code1 + [cmd];
    o := Exec(ctx, [cmd], c1);
    assert g'.code == g.code + code by {
      assert g'.code == x.rest.code + [cmd];
    }
    ResultRefines(ctx, x.rest, g', Drop(s, 1), c1, x.frame, v);
  }

  lemma OperatorRefines(ctx: Context, g: GState, s: EState, c: B.Config, op: PseudoOpCode)
    returns (code: seq<Command>, o: Outcome<B.Config>)
    requires Refines(ctx, g, s, c) && IsCovered(op) && Operator(ctx.env, g, op).Some?
    ensures Outcomes(ctx, g, Operator(ctx.env, g, op).value, s, EvalOperator(ctx, s, op), c, code, o)
  {
    hide Refines, Binary, Unary, EvalBinaryOp, EvalUnaryOp, Outcomes, IsBinary;
    Unfold(ctx, g, s, c);
    if IsBinary(op) {
      code, o := BinaryRefines(ctx, g, s, c, op);
    } else if op == Negative || op == BitNot {
      code, o := UnaryRefines(ctx, g, s, c, op);
    } else {
      code, o := [], Next(c);
      NothingHappens(ctx, g, s, c);
    }
  }

  lemma Unfold(ctx: Context, g: GState, s: EState, c: B.Config)
    requires Refines(ctx, g, s, c)
    ensures Agrees(ctx.env, g) && StateOk(ctx, s) && B.ConfigOk(ctx.space, c) && c.mem == s.mem && |g.stack| == |s.stack|
  {
  }

  // ----- assignment -----

  lemma StoreCommandMeans(ctx: Context, left: Frame, target: Cell, r: Word, c: B.Config)
    requires ContextOk(ctx) && CellOk(ctx, target) && target.Place? && Denotes(left, target, c.regs)
    requires B.ConfigOk(ctx.space, c) && r < |c.regs|
    ensures LineOk(ctx, StorePlace(left, r))
    ensures StepLine(ctx, StorePlace(left, r), c)
            == Next(c.(mem := Stored(ctx, c.mem, target, c.regs[r]), pc := c.pc + 1))
  {
    ReferenceCommands(left, r);
    hide B.Decode, B.IsPlace, B.PlaceAddress, WriteBytes;
  }

  /** The conversion and the store of an assignment. */
  lemma StoreMeans(ctx: Context, left: Frame, target: Cell, right: Frame, c: B.Config)
    requires ContextOk(ctx) && CellOk(ctx, target) && target.Place? && Denotes(left, target, c.regs)
    requires B.ConfigOk(ctx.space, c) && right.data < |c.regs| && right.dtype != Real
    ensures var code := Conversion(right.dtype, left.dtype, right.data) + [StorePlace(left, right.data)];
            && IsLine(ctx, code)
            && Exec(ctx, code, c)
               == Next(c.(mem := Stored(ctx, c.mem, target, c.regs[right.data]), pc := c.pc + |code|))
  {
    hide ContextOk, LineOk, StepLine, Conversion, Exec, Stored;
    RegistersFit(ctx);
    ConversionMeans(ctx, right.dtype, left.dtype, right.data, c);
    var x, cmd := Conversion(right.dtype, left.dtype, right.data), StorePlace(left, right.data);
    var c1 := c.(pc := c.pc + |x|);
    StoreCommandMeans(ctx, left, target, right.data, c1);
    ExecOne(ctx, cmd, c1);
    ExecAppend(ctx, x, [cmd], c);
  }

  /** A stored value changes only the memory. */
  lemma StoredRefines(ctx: Context, g: GState, g': GState, s: EState, c: B.Config, mem: Memory, cells: seq<Cell>, pc: nat)
    requires Refines(ctx, g, s, c) && Agrees(ctx.env, g') && |mem| == |c.mem|
    requires AllDenote(g'.stack, cells, c.regs)
    requires forall k :: 0 <= k < |cells| ==> CellOk(ctx, cells[k])
    ensures Refines(ctx, g', EState(cells, mem), c.(mem := mem, pc := pc))
  {
    hide ContextOk, CellOk, Denotes;
  }

  lemma PlaceFrame(f: Frame, c: Cell, regs: seq<Word>)
    requires Denotes(f, c, regs)
    ensures c.Place? <==> f.holder == StaticAddress || f.holder == SymbolRef
  {
  }

  lemma PlainAssignmentRefines(ctx: Context, g: GState, s: EState, c: B.Config, op: PseudoOp)
    returns (code: seq<Command>, o: Outcome<B.Config>)
    requires Refines(ctx, g, s, c) && Assignment(ctx.env, g, op).Some? && op.compound == Nop
    requires op.code == Assign || op.code == AssignR
    ensures Outcomes(ctx, g, Assignment(ctx.env, g, op).value, s, EvalAssignment(ctx, s, op), c, code, o)
  {
    hide LoadOperand, Fetch, Stored, ContextOk, CellOk, Denotes, Owned, Distinct, Exec, LineOk, Conversion, StorePlace, IsLine;
    var code1, c1 := LoadRefines(ctx, g, s, c);
    LoadAgrees(ctx.env, g);
    PlainAssignmentAgrees(ctx.env, g, op);
    var right, g' := LoadOperand(ctx.env, g).value, Assignment(ctx.env, g, op).value;
    var s1 := Drop(s, 1);
    var n := |s1.stack| - 1;
    var left, target := right.rest.stack[n], s1.stack[n];
    assert Denotes(left, target, c1.regs) && CellOk(ctx, target);
    assert target == Second(s);
    PlaceFrame(left, target, c1.regs);
    KindIsInteger(ctx, Top(s));
    StoreMeans(ctx, left, target, right.frame, c1);
    var code2 := Conversion(right.frame.dtype, left.dtype, right.frame.data) + [StorePlace(left, right.frame.data)];
    ExecAppend(ctx, code1, code2, c);
    code := code1 + code2;
    o := Exec(ctx, code2, c1);
    var mem := Stored(ctx, c1.mem, target, c1.regs[right.frame.data]);
    var keep := if op.code == AssignR then [target] else [];
    var cells := Drop(s, 2).stack + keep;
    assert s.stack[..|s.stack| - 1][..n] == s.stack[..|s.stack| - 2];
    assert cells == if op.code == AssignR then s1.stack else s1.stack[..n];
    StoredRefines(ctx, right.rest, g', s1, c1, mem, cells, c1.pc + |code2|);
    assert g'.code == right.rest.code + code2;
    assert g.code + code == g.code + code1 + code2;
  }

  // ----- compound assignment: the right operand is loaded, the operator applied, the result stored -----

  /** An operator leaves its result in a register on top. */
  lemma OperatorTop(env: Env, g: GState, op: PseudoOpCode)
    requires env.general < TWO64 && Operator(env, g, op).Some?
    requires g.stack != [] && Loaded(g.stack[|g.stack| - 1])
    ensures var g' := Operator(env, g, op).value; g'.stack != [] && Loaded(g'.stack[|g'.stack| - 1])
  {
    hide LoadOperand, LoadBoth, Combine, LogicCode, ArithmeticCode, IsBinary;
    if IsBinary(op) {
      var x := LoadBoth(env, g).value;
      LoadBothLoaded(env, g);
      ResultInLeftRegister(op, x.left, x.right);
    }
  }

  lemma LoadBothLoaded(env: Env, g: GState)
    requires env.general < TWO64 && LoadBoth(env, g).Some?
    ensures Loaded(LoadBoth(env, g).value.left)
  {
    hide LoadOperand;
  }

  /** Frames that stand for sound operands are sound. */
  lemma DenoteSound(ctx: Context, g: GState, s: EState, c: B.Config)
    requires Refines(ctx, g, s, c)
    ensures Ready(ctx, g)
  {
    forall k | 0 <= k < |g.stack|
      ensures Sound(ctx, g.stack[k])
    {
      hide ContextOk, PlaceOk, ConstantOk;
      var f := g.stack[k];
      assert Denotes(f, s.stack[k], c.regs) && CellOk(ctx, s.stack[k]);
      if Loaded(f) {
        assert f.data in Owned(g.stack);
      }
    }
  }

  /** A loaded operand, pushed again. */
  lemma PushLoadedRefines(ctx: Context, g: GState, s: EState, c: B.Config, f: Frame, v: Cell)
    requires Refines(ctx, g, s, c) && Loaded(f) && f.data in Reserved(g) && f.data < |c.regs|
    requires v == Value(c.regs[f.data], f.dtype) && CellOk(ctx, v)
    ensures Refines(ctx, Push(g, f), PushCell(s, v).state, c)
    ensures Reserved(Push(g, f)) == Reserved(g) - {f.data}
  {
    hide ContextOk, Owned, Distinct;
    PushAgrees(ctx.env, g, f);
    DenotePush(g.stack, s.stack, c.regs, f, v);
    PushKeepsOk(ctx, s, 0, v);
    assert s.stack[..|s.stack| - 0] == s.stack;
  }

  lemma ReadOk(ctx: Context, mem: Memory, t: Cell)
    requires SpaceOk(ctx.space) && |mem| == ctx.space.end && CellOk(ctx, t)
    ensures CellOk(ctx, Read(ctx, mem, t))
    ensures Read(ctx, mem, Read(ctx, mem, t)) == Read(ctx, mem, t)
  {
  }

  lemma SameBelow(s: EState, v: Cell)
    requires s.stack != []
    ensures var s1 := PushCell(Drop(s, 1), v).state;
            && |s1.stack| == |s.stack| && s1.mem == s.mem && Top(s1) == v && Drop(s1, 1) == Drop(s, 1)
            && (|s.stack| >= 2 ==> Second(s1) == Second(s) && Drop(s1, 2) == Drop(s, 2))
  {
    var s1 := PushCell(Drop(s, 1), v).state;
    assert s1.stack[..|s1.stack| - 1] == s.stack[..|s.stack| - 1];
    if |s.stack| >= 2 {
      assert s1.stack[..|s1.stack| - 2] == s.stack[..|s.stack| - 2];
    }
  }

  lemma CellsInState(ctx: Context, s: EState)
    requires StateOk(ctx, s)
    ensures SpaceOk(ctx.space) && |s.mem| == ctx.space.end
    ensures s.stack != [] ==> CellOk(ctx, Top(s))
    ensures |s.stack| >= 2 ==> CellOk(ctx, Second(s))
  {
    hide CellOk;
  }

  /** Operators do not see whether their top operand has been read already. */
  lemma OperatorReadsTop(ctx: Context, s: EState, op: PseudoOpCode)
    requires StateOk(ctx, s) && IsCovered(op) && s.stack != []
    ensures CellOk(ctx, Top(s))
    ensures var v := Read(ctx, s.mem, Top(s));
            var s1 := PushCell(Drop(s, 1), v).state;
            && StateOk(ctx, s1)
            && (EvalOperator(ctx, s1, op) == EvalOperator(ctx, s, op)
                || (EvalOperator(ctx, s, op) == Done(s) && EvalOperator(ctx, s1, op) == Done(s1)))
  {
    hide ContextOk, Apply, IsBinary, Fetch, CellOk, Drop, Top, Second;
    CellsInState(ctx, s);
    var v := Read(ctx, s.mem, Top(s));
    ReadOk(ctx, s.mem, Top(s));
    PushKeepsOk(ctx, s, 1, v);
    SameBelow(s, v);
    CellsInState(ctx, PushCell(Drop(s, 1), v).state);
  }

  lemma PlaceDenotes(f: Frame, c: Cell, regs: seq<Word>, regs': seq<Word>)
    requires Denotes(f, c, regs) && c.Place?
    ensures Denotes(f, c, regs') && !Loaded(f)
  {
  }

  /** Storing the computed value finishes a compound assignment. */
  lemma ComputedStore(ctx: Context, computed: GState, g': GState, s: EState, c: B.Config, left: Frame, target: Cell,
                      keeps: bool, code: seq<Command>)
    requires Refines(ctx, computed, s, c) && Agrees(ctx.env, g')
    requires computed.stack != [] && Loaded(computed.stack[|computed.stack| - 1])
    requires Denotes(left, target, c.regs) && target.Place? && CellOk(ctx, target)
    requires var f := computed.stack[|computed.stack| - 1];
             code == Conversion(f.dtype, left.dtype, f.data) + [StorePlace(left, f.data)]
    requires g'.stack == computed.stack[..|computed.stack| - 1] + if keeps then [left] else []
    ensures IsLine(ctx, code) && Exec(ctx, code, c).Next? && s.stack != [] && CellOk(ctx, Top(s))
    ensures var mem := Stored(ctx, s.mem, target, Fetch(ctx, s.mem, Top(s)));
            Refines(ctx, g', EState(Drop(s, 1).stack + if keeps then [target] else [], mem), Exec(ctx, code, c).state)
    ensures var c' := Exec(ctx, code, c).state; c'.regs == c.regs && c'.sp == c.sp && c'.output == c.output
  {
    hide Fetch, Stored, ContextOk, CellOk, Owned, Distinct, Exec, LineOk, Conversion, StorePlace;
    var n := |s.stack| - 1;
    var f, v := computed.stack[n], s.stack[n];
    assert Denotes(f, v, c.regs) && CellOk(ctx, v) && v == Top(s);
    KindIsInteger(ctx, v);
    FetchValue(ctx, s.mem, v);
    StoreMeans(ctx, left, target, f, c);
    DenotePop(computed.stack, s.stack, c.regs, 1);
    var cells := Drop(s, 1).stack + if keeps then [target] else [];
    if keeps {
      DenotePush(computed.stack[..n], s.stack[..n], c.regs, left, target);
    } else {
      assert s.stack[..n] + [] == s.stack[..n];
    }
    var mem := Stored(ctx, c.mem, target, v.bits);
    StoredRefines(ctx, computed, g', s, c, mem, cells, c.pc + |code|);
  }

  /** The shape of a compound assignment once the right operand is loaded. */
  lemma CompoundShape(env: Env, g: GState, op: PseudoOp)
    requires env.general < TWO64 && Assignment(env, g, op).Some? && op.compound != Nop
    ensures LoadOperand(env, g).Some? && |LoadOperand(env, g).value.rest.stack| >= 1
    ensures var right := LoadOperand(env, g).value;
            var left := right.rest.stack[|right.rest.stack| - 1];
            var pushed := Push(right.rest, right.frame);
            && (left.holder == StaticAddress || left.holder == SymbolRef)
            && Operator(env, pushed, op.compound).Some?
            && var computed := Operator(env, pushed, op.compound).value;
            && computed.stack != [] && Loaded(computed.stack[|computed.stack| - 1])
            && var f := computed.stack[|computed.stack| - 1];
            var g' := Assignment(env, g, op).value;
            && g'.code == computed.code + (Conversion(f.dtype, left.dtype, f.data) + [StorePlace(left, f.data)])
            && g'.stack == computed.stack[..|computed.stack| - 1] + if op.code == AssignR then [left] else []
  {
    hide Operator, Conversion, StorePlace;
    var right := LoadOperand(env, g).value;
    var pushed := Push(right.rest, right.frame);
    OperatorTop(env, pushed, op.compound);
    var computed := Operator(env, pushed, op.compound).value;
    assert computed.stack[..|computed.stack| - 1] + [] == computed.stack[..|computed.stack| - 1];
  }

  lemma AssignmentLoads(env: Env, g: GState, op: PseudoOp)
    requires env.general < TWO64 && Assignment(env, g, op).Some?
    ensures |g.stack| >= 2 && LoadOperand(env, g).Some?
  {
  }

  lemma LineSuffix(ctx: Context, before: seq<Command>, tail: seq<Command>, x: seq<Command>, y: seq<Command>)
    requires before + tail == before + (x + y) && IsLine(ctx, tail)
    ensures IsLine(ctx, y)
  {
    hide LineOk;
    assert (before + tail)[|before|..] == tail && (before + (x + y))[|before|..] == x + y;
    forall k | 0 <= k < |y|
      ensures LineOk(ctx, y[k])
    {
      assert tail[|x| + k] == y[k];
    }
  }

  /** What an assignment emits is straight-line code, to its end. */
  lemma RestIsLine(ctx: Context, g: GState, s: EState, c: B.Config, op: PseudoOp, x: seq<Command>, y: seq<Command>)
    requires Refines(ctx, g, s, c) && Assignment(ctx.env, g, op).Some? && op.compound != Nop && IsCovered(op.compound)
    requires op.code == Assign || op.code == AssignR
    requires Assignment(ctx.env, g, op).value.code == g.code + (x + y)
    ensures IsLine(ctx, y)
  {
    hide Assignment, LineOk, Denotes, Sound, CellOk, ContextOk, Owned, Distinct;
    DenoteSound(ctx, g, s, c);
    AssignmentSound(ctx, g, op);
    var tail := ExtendsTail(ctx, g, Assignment(ctx.env, g, op).value);
    LineSuffix(ctx, g.code, tail, x, y);
  }

  lemma TopDenotes(ctx: Context, g: GState, s: EState, c: B.Config)
    requires Refines(ctx, g, s, c) && s.stack != []
    ensures g.stack != [] && Denotes(g.stack[|g.stack| - 1], Top(s), c.regs) && CellOk(ctx, Top(s))
  {
    hide Denotes, CellOk, ContextOk, Owned, Distinct;
  }

  /** The operator of a compound assignment may as well see the source operand's value as its place. */
  lemma CompoundMeaning(ctx: Context, s: EState, op: PseudoOp)
    requires StateOk(ctx, s) && IsCovered(op.compound) && op.compound != Nop && |s.stack| >= 2 && Second(s).Place?
    ensures CellOk(ctx, Top(s))
    ensures var s1 := PushCell(Drop(s, 1), Read(ctx, s.mem, Top(s))).state;
            && StateOk(ctx, s1)
            && EvalAssignment(ctx, s, op)
               == match EvalOperator(ctx, s1, op.compound)
                  case Done(t) =>
                    if t.stack == [] || !CellOk(ctx, Top(t)) then Stuck
                    else Done(EState(Drop(t, 1).stack + (if op.code == AssignR then [Second(s)] else []),
                                     Stored(ctx, s.mem, Second(s), Fetch(ctx, s.mem, Top(t)))))
                  case DivisionByZero => DivisionByZero
                  case Stuck => Stuck
  {
    hide Fetch, Stored, ContextOk, CellOk, EvalOperator;
    CellsInState(ctx, s);
    OperatorReadsTop(ctx, s, op.compound);
    ReadOk(ctx, s.mem, Top(s));
    FetchValue(ctx, s.mem, Read(ctx, s.mem, Top(s)));
    var s1 := PushCell(Drop(s, 1), Read(ctx, s.mem, Top(s))).state;
    assert Top(s1) == Read(ctx, s.mem, Top(s)) && Drop(s1, 1) == Drop(s, 1) by {
      assert s1.stack[..|s1.stack| - 1] == Drop(s, 1).stack;
    }
  }

  /** The source operand is loaded, its value stands in its place on the reference stack, and the target is below it. */
  ghost predicate SourceLoaded(ctx: Context, g: GState, s: EState, c: B.Config, code: seq<Command>, c1: B.Config, s1: EState) {
    && SpaceOk(ctx.space) && |s.mem| == ctx.space.end && ctx.env.general < TWO64 && B.ConfigOk(ctx.space, c)
    && |s.stack| >= 2 && Second(s).Place? && CellOk(ctx, Top(s)) && CellOk(ctx, Second(s))
    && s1 == PushCell(Drop(s, 1), Read(ctx, s.mem, Top(s))).state
    && LoadOperand(ctx.env, g).Some?
    && var right := LoadOperand(ctx.env, g).value;
    && var pushed := Push(right.rest, right.frame);
    && right.rest.stack != [] && Denotes(right.rest.stack[|right.rest.stack| - 1], Second(s), c1.regs)
    && Refines(ctx, pushed, s1, c1) && Reserved(g) <= Reserved(pushed)
    && pushed.code == g.code + code && IsLine(ctx, code) && Exec(ctx, code, c) == Next(c1) && Spares(Reserved(g), c, c1)
  }

  /** A compound assignment first loads its source; the operator then sees the value in its place. */
  lemma CompoundOperand(ctx: Context, g: GState, s: EState, c: B.Config, op: PseudoOp)
    returns (code: seq<Command>, c1: B.Config, s1: EState)
    requires Refines(ctx, g, s, c) && Assignment(ctx.env, g, op).Some? && op.compound != Nop && IsCovered(op.compound)
    ensures SourceLoaded(ctx, g, s, c, code, c1, s1)
  {
    hide LoadOperand, Fetch, ContextOk, CellOk, Denotes, Owned, Distinct, Exec, LineOk, Operator, Assignment, Sound, IsLine,
         AllDenote, InRange, Conversion, StorePlace;
    Unfold(ctx, g, s, c);
    AssignmentLoads(ctx.env, g, op);
    code, c1 := LoadRefines(ctx, g, s, c);
    LoadAgrees(ctx.env, g);
    var right := LoadOperand(ctx.env, g).value;
    KindIsInteger(ctx, Top(s));
    CompoundShape(ctx.env, g, op);
    TopDenotes(ctx, right.rest, Drop(s, 1), c1);
    PlaceFrame(right.rest.stack[|right.rest.stack| - 1], Second(s), c1.regs);
    s1 := PushCell(Drop(s, 1), Read(ctx, s.mem, Top(s))).state;
    ReadOk(ctx, s.mem, Top(s));
    PushLoadedRefines(ctx, right.rest, Drop(s, 1), c1, right.frame, Read(ctx, s.mem, Top(s)));
  }

  lemma InOrder<T>(a: seq<T>, b: seq<T>, c: seq<T>, d: seq<T>)
    ensures a + b + c + d == a + (b + c + d)
  {
  }

  lemma CompoundAssignmentRefines(ctx: Context, g: GState, s: EState, c: B.Config, op: PseudoOp)
    returns (code: seq<Command>, o: Outcome<B.Config>)
    requires Refines(ctx, g, s, c) && Assignment(ctx.env, g, op).Some? && op.compound != Nop && IsCovered(op.compound)
    requires op.code == Assign || op.code == AssignR
    ensures Outcomes(ctx, g, Assignment(ctx.env, g, op).value, s, EvalAssignment(ctx, s, op), c, code, o)
  {
    hide LoadOperand, Fetch, Stored, ContextOk, CellOk, Denotes, Owned, Distinct, Exec, LineOk, Conversion, Operator,
         EvalOperator, EvalAssignment, Assignment, StorePlace, PlaceOk, ConstantOk, Sound, EmitOp, IsLine, AllDenote, InRange;
    Unfold(ctx, g, s, c);
    var code1, c1, s1 := CompoundOperand(ctx, g, s, c, op);
    CompoundAssignmentAgrees(ctx.env, g, op);
    var right, g' := LoadOperand(ctx.env, g).value, Assignment(ctx.env, g, op).value;
    CompoundShape(ctx.env, g, op);
    CompoundMeaning(ctx, s, op);
    var left, target, pushed := right.rest.stack[|right.rest.stack| - 1], Second(s), Push(right.rest, right.frame);
    var code2, o2 := OperatorRefines(ctx, pushed, s1, c1, op.compound);
    var computed := Operator(ctx.env, pushed, op.compound).value;
    var f := computed.stack[|computed.stack| - 1];
    var code3 := Conversion(f.dtype, left.dtype, f.data) + [StorePlace(left, f.data)];
    code, o := code1 + code2 + code3, o2;
    InOrder(g.code, code1, code2, code3);
    ExecAppend(ctx, code1, code2, c);
    if o2.Next? {
      PlaceDenotes(left, target, c1.regs, o2.state.regs);
      OperatorKeepsOk(ctx, s1, op.compound);
      ComputedStore(ctx, computed, g', EvalOperator(ctx, s1, op.compound).state, o2.state, left, target, op.code == AssignR, code3);
      ExecAppend(ctx, code1 + code2, code3, c);
      o := Exec(ctx, code3, o2.state);
    } else {
      RestIsLine(ctx, g, s, c, op, code1 + code2, code3);
      ExecAppend(ctx, code1 + code2, code3, c);
    }
  }

  /** Pushing an operand emits nothing. */
  lemma PushOperandRefines(ctx: Context, g: GState, s: EState, c: B.Config, f: Frame, t: Cell)
    requires Refines(ctx, g, s, c) && !Loaded(f) && CellOk(ctx, t) && Denotes(f, t, c.regs)
    ensures Outcomes(ctx, g, Push(g, f), s, PushCell(s, t), c, [], Next(c))
  {
    hide ContextOk, CellOk, Denotes, Owned, Distinct;
    PushAgrees(ctx.env, g, f);
    DenotePush(g.stack, s.stack, c.regs, f, t);
    PushKeepsOk(ctx, s, 0, t);
    assert s.stack[..|s.stack| - 0] == s.stack;
    assert g.code + [] == g.code;
  }

  /** Every straight-line operation emits code that does what the reference machine does. */
  lemma OperationRefines(ctx: Context, g: GState, s: EState, c: B.Config, op: PseudoOp)
    returns (code: seq<Command>, o: Outcome<B.Config>)
    requires Refines(ctx, g, s, c) && Straight(op) && EmitOp(ctx.env, g, op).Some?
    ensures Outcomes(ctx, g, EmitOp(ctx.env, g, op).value, s, EvalOp(ctx, s, op), c, code, o)
  {
    hide Refines, Operator, EvalOperator, Assignment, EvalAssignment, Outcomes, ContextOk, CellOk, Denotes, PushCell, Push;
    Unfold(ctx, g, s, c);
    CellsOk(ctx);
    if op.code == Assign || op.code == AssignR {
      if op.compound == Nop {
        code, o := PlainAssignmentRefines(ctx, g, s, c, op);
      } else {
        code, o := CompoundAssignmentRefines(ctx, g, s, c, op);
      }
    } else if op.code == Use {
      var v := ctx.env.vars[op.arg0];
      UseDenotes(v, c.regs);
      code, o := [], Next(c);
      PushOperandRefines(ctx, g, s, c, UseFrame(v), Place(VariableArg(v), v.kind, v.size));
    } else if op.code == UseConstant {
      var k := ctx.env.constants[op.arg0];
      ConstantDenotes(op.arg0, k, c.regs);
      code, o := [], Next(c);
      PushOperandRefines(ctx, g, s, c, ConstantFrame(op.arg0, k), Literal(op.arg0, k.kind, k.size));
    } else {
      code, o := OperatorRefines(ctx, g, s, c, op.code);
    }
  }

  lemma UseDenotes(v: Variable, regs: seq<Word>)
    ensures !Loaded(UseFrame(v)) && Denotes(UseFrame(v), Place(VariableArg(v), v.kind, v.size), regs)
  {
  }

  lemma ConstantDenotes(k: Word, info: ConstantInfo, regs: seq<Word>)
    ensures !Loaded(ConstantFrame(k, info)) && Denotes(ConstantFrame(k, info), Literal(k, info.kind, info.size), regs)
  {
  }

  /** A translation that succeeds emits code that runs exactly as the reference machine does. */
  lemma {:induction false} TranslationRefines(ctx: Context, g: GState, s: EState, c: B.Config, ops: seq<PseudoOp>)
    returns (code: seq<Command>, o: Outcome<B.Config>)
    requires Refines(ctx, g, s, c) && (forall op :: op in ops ==> Straight(op)) && EmitAll(ctx.env, g, ops).Some?
    ensures Outcomes(ctx, g, EmitAll(ctx.env, g, ops).value, s, EvalAll(ctx, s, ops), c, code, o)
    decreases |ops|
  {
    hide EmitOp, EvalOp, Refines, ContextOk, CellOk, Reserved, Owned, Distinct, Outcomes;
    Unfold(ctx, g, s, c);
    if ops == [] {
      code, o := [], Next(c);
      NothingHappens(ctx, g, s, c);
    } else {
      var g1, g' := EmitOp(ctx.env, g, ops[0]).value, EmitAll(ctx.env, g, ops).value;
      var r1 := EvalOp(ctx, s, ops[0]);
      var code1, o1 := OperationRefines(ctx, g, s, c, ops[0]);
      EmitAgrees(ctx.env, g, ops[0]);
      ReservedGrows(ops[0], g, g1);
      OutcomeKind(ctx, g, g1, s, r1, c, code1, o1);
      if r1.Done? {
        Unfold(ctx, g1, r1.state, o1.state);
        var code2, o2 := TranslationRefines(ctx, g1, r1.state, o1.state, ops[1..]);
        code, o := code1 + code2, o2;
        OutcomesCompose(ctx, g, g1, g', s, r1.state, EvalAll(ctx, r1.state, ops[1..]), c, o1.state, code1, code2, o);
      } else {
        DenoteSound(ctx, g, s, c);
        EmitSound(ctx, g, ops[0]);
        TranslationSound(ctx, g1, ops[1..]);
        var code2 := ExtendsTail(ctx, g1, g');
        code, o := code1 + code2, o1;
        FaultStays(ctx, g, g1, g', s, c, code1, code2, o);
      }
    }
  }

  lemma NothingHappens(ctx: Context, g: GState, s: EState, c: B.Config)
    requires Refines(ctx, g, s, c)
    ensures Outcomes(ctx, g, g, s, Done(s), c, [], Next(c))
  {
    assert g.code + [] == g.code;
  }

  lemma ReservedGrows(op: PseudoOp, g: GState, g': GState)
    requires Balanced(op, g, g')
    ensures Reserved(g) <= Reserved(g')
  {
    hide Reserved;
  }

  lemma OutcomeKind(ctx: Context, g: GState, g': GState, s: EState, r: Result, c: B.Config, code: seq<Command>,
                    o: Outcome<B.Config>)
    requires Outcomes(ctx, g, g', s, r, c, code, o)
    ensures r.Done? ==> o.Next? && Refines(ctx, g', r.state, o.state)
    ensures !r.Done? ==> r.DivisionByZero? && o == Fault(ZeroDivision)
  {
  }

  lemma OutcomesCompose(ctx: Context, g: GState, g1: GState, g2: GState, s: EState, s1: EState, r: Result,
                        c: B.Config, c1: B.Config, code1: seq<Command>, code2: seq<Command>, o: Outcome<B.Config>)
    requires Outcomes(ctx, g, g1, s, Done(s1), c, code1, Next(c1)) && Outcomes(ctx, g1, g2, s1, r, c1, code2, o)
    requires Reserved(g) <= Reserved(g1)
    ensures Outcomes(ctx, g, g2, s, r, c, code1 + code2, o)
  {
    hide Refines, Exec, LineOk, Reserved;
    ExecAppend(ctx, code1, code2, c);
    assert g.code + code1 + code2 == g.code + (code1 + code2);
  }

  lemma FaultStays(ctx: Context, g: GState, g1: GState, g2: GState, s: EState, c: B.Config, code1: seq<Command>,
                   code2: seq<Command>, o: Outcome<B.Config>)
    requires Outcomes(ctx, g, g1, s, DivisionByZero, c, code1, o) && g2.code == g1.code + code2 && IsLine(ctx, code2)
    ensures Outcomes(ctx, g, g2, s, DivisionByZero, c, code1 + code2, o)
  {
    hide Exec, LineOk;
    ExecAppend(ctx, code1, code2, c);
    assert g.code + code1 + code2 == g.code + (code1 + code2);
  }
}
