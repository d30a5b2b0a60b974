/** The emitted commands compute what the reference stack machine computes, although operands are loaded lazily. */
module CodegenCorrect {
  import opened Words
  import opened ByteCode
  import opened Machine
  import opened Pseudo
  import opened Registers
  import opened CodegenSpec
  import opened RegisterBalance
  import opened StackEvaluator
  import B = ByteMachine

  // ----- straight-line execution -----

  /** A command the byte machine runs in this module and that does not jump. */
  predicate LineOk(ctx: Context, cmd: Command) {
    B.Supported(ctx.layout, [], ctx.m, B.Decode(cmd)) && B.CleanArguments(cmd)
  }

  ghost predicate IsLine(ctx: Context, code: seq<Command>) {
    forall k :: 0 <= k < |code| ==> LineOk(ctx, code[k])
  }

  lemma LineKeepsOk(ctx: Context, i: B.Instr, c: B.Config)
    requires B.ConfigOk(ctx.space, c) && B.Supported(ctx.layout, [], ctx.m, i)
    ensures !i.Jump?
    ensures var r := B.StepInstr(ctx.layout, ctx.space, [], ctx.m, i, c);
            r.Next? ==> B.ConfigOk(ctx.space, r.state) && r.state.pc == c.pc + 1
  {
  }

  function StepLine(ctx: Context, cmd: Command, c: B.Config): Outcome<B.Config>
    requires B.ConfigOk(ctx.space, c) && LineOk(ctx, cmd)
  {
    B.StepInstr(ctx.layout, ctx.space, [], ctx.m, B.Decode(cmd), c)
  }

  function Exec(ctx: Context, code: seq<Command>, c: B.Config): Outcome<B.Config>
    requires B.ConfigOk(ctx.space, c) && IsLine(ctx, code)
    decreases |code|
  {
    if code == [] then Next(c)
    else
      LineKeepsOk(ctx, B.Decode(code[0]), c);
      match StepLine(ctx, code[0], c)
      case Next(c') => Exec(ctx, code[1..], c')
      case Fault(e) => Fault(e)
  }

  lemma {:induction false} ExecAppend(ctx: Context, x: seq<Command>, y: seq<Command>, c: B.Config)
    requires B.ConfigOk(ctx.space, c) && IsLine(ctx, x) && IsLine(ctx, y)
    ensures IsLine(ctx, x + y)
    ensures match Exec(ctx, x, c) {
              case Next(c') => B.ConfigOk(ctx.space, c') && Exec(ctx, x + y, c) == Exec(ctx, y, c')
              case Fault(e) => Exec(ctx, x + y, c) == Fault(e)
            }
    decreases |x|
  {
    hide LineOk, StepLine;
    if x == [] {
      assert x + y == y;
    } else {
      assert (x + y)[0] == x[0] && (x + y)[1..] == x[1..] + y;
      LineKeeps(ctx, x[0], c);
      var r := StepLine(ctx, x[0], c);
      if r.Next? {
        ExecAppend(ctx, x[1..], y, r.state);
      }
    }
  }

  lemma LineKeeps(ctx: Context, cmd: Command, c: B.Config)
    requires B.ConfigOk(ctx.space, c) && LineOk(ctx, cmd)
    ensures var r := StepLine(ctx, cmd, c); r.Next? ==> B.ConfigOk(ctx.space, r.state) && r.state.pc == c.pc + 1
  {
    LineKeepsOk(ctx, B.Decode(cmd), c);
  }

  lemma ExecOne(ctx: Context, cmd: Command, c: B.Config)
    requires B.ConfigOk(ctx.space, c) && LineOk(ctx, cmd)
    ensures IsLine(ctx, [cmd]) && Exec(ctx, [cmd], c) == StepLine(ctx, cmd, c)
  {
    hide LineOk, StepLine;
    LineKeeps(ctx, cmd, c);
    var r := StepLine(ctx, cmd, c);
    if r.Next? {
      assert Exec(ctx, [], r.state) == Next(r.state);
    }
  }

  // ----- operands and frames -----

  /** A frame stands for an operand: same place, same constant, or a register that holds the value. */
  predicate Denotes(f: Frame, c: Cell, regs: seq<Word>) {
    match c
    case Place(arg, kind, size) =>
      && !Loaded(f) && f.holder != ConstantRef && PlaceArg(f) == arg
      && f.dtype == f.stype == kind && f.dsize == f.ssize == size
    case Literal(k, kind, size) => f.holder == ConstantRef && f.data == k && f.dtype == kind && f.dsize == size
    case Value(bits, kind) => Loaded(f) && f.data < |regs| && regs[f.data] == bits && f.dtype == kind
  }

  ghost predicate AllDenote(frames: seq<Frame>, cells: seq<Cell>, regs: seq<Word>) {
    |frames| == |cells| && forall k :: 0 <= k < |frames| ==> Denotes(frames[k], cells[k], regs)
  }

  /** The generator's stack, the reference machine and the running byte machine agree. */
  ghost predicate Refines(ctx: Context, g: GState, s: EState, c: B.Config) {
    && Agrees(ctx.env, g) && StateOk(ctx, s) && B.ConfigOk(ctx.space, c)
    && c.mem == s.mem && AllDenote(g.stack, s.stack, c.regs)
  }

  /** Nothing but registers outside the given set changes. */
  ghost predicate Spares(kept: set<nat>, c: B.Config, c': B.Config) {
    && |c'.regs| == |c.regs| && c'.sp == c.sp && c'.output == c.output
    && forall r :: r in kept && r < |c.regs| ==> c'.regs[r] == c.regs[r]
  }

  lemma StillDenote(frames: seq<Frame>, cells: seq<Cell>, c: B.Config, c': B.Config, kept: set<nat>)
    requires AllDenote(frames, cells, c.regs) && Owned(frames) <= kept && Spares(kept, c, c')
    ensures AllDenote(frames, cells, c'.regs)
  {
    forall k | 0 <= k < |frames|
      ensures Denotes(frames[k], cells[k], c'.regs)
    {
      if Loaded(frames[k]) {
        assert frames[k].data in Owned(frames);
      }
    }
  }

  lemma DenotePush(frames: seq<Frame>, cells: seq<Cell>, regs: seq<Word>, f: Frame, c: Cell)
    requires AllDenote(frames, cells, regs) && Denotes(f, c, regs)
    ensures AllDenote(frames + [f], cells + [c], regs)
  {
  }

  lemma DenotePop(frames: seq<Frame>, cells: seq<Cell>, regs: seq<Word>, n: nat)
    requires AllDenote(frames, cells, regs) && n <= |frames|
    ensures AllDenote(frames[..|frames| - n], cells[..|cells| - n], regs)
  {
  }

  lemma StateDrop(ctx: Context, s: EState, n: nat)
    requires StateOk(ctx, s) && n <= |s.stack|
    ensures StateOk(ctx, Drop(s, n))
  {
    hide ContextOk, CellOk;
  }

  // ----- loading -----

  /** What the loading command does to a config. */
  lemma LoadCommandMeans(ctx: Context, f: Frame, t: Cell, r: nat, c: B.Config)
    requires ContextOk(ctx) && CellOk(ctx, t) && B.ConfigOk(ctx.space, c) && r < ctx.env.general
    requires !t.Value? && Denotes(f, t, c.regs)
    ensures LineOk(ctx, LoadCommand(ctx.env, f, r))
    ensures StepLine(ctx, LoadCommand(ctx.env, f, r), c) == Next(B.SetReg(c, r, Fetch(ctx, c.mem, t)))
    ensures LoadedFrame(ctx.env, f, r).dtype == t.kind && LoadedFrame(ctx.env, f, r).data == r
  {
    hide ReadBytes;
    ReferenceCommands(f, r);
    hide B.Decode;
    if t.Place? {
      PlaceCommandMeans(ctx, f, t, r, c);
    } else {
      assert B.IsConstant(ctx.layout, Arg(f.data, Constant));
    }
  }

  lemma PlaceCommandMeans(ctx: Context, f: Frame, t: Cell, r: nat, c: B.Config)
    requires ContextOk(ctx) && CellOk(ctx, t) && B.ConfigOk(ctx.space, c) && r < ctx.env.general
    requires t.Place? && Denotes(f, t, c.regs)
    requires B.Decode(LoadPlace(f, r)) == B.LoadPlace(PlaceArg(f), r, f.dsize)
    ensures LineOk(ctx, LoadPlace(f, r))
    ensures StepLine(ctx, LoadPlace(f, r), c) == Next(B.SetReg(c, r, Fetch(ctx, c.mem, t)))
  {
    hide ReadBytes, B.Decode, B.IsPlace, B.PlaceAddress;
  }

  lemma ReferenceCommands(f: Frame, r: nat)
    requires r < TWO64
    ensures B.Decode(LoadPlace(f, r)) == B.LoadPlace(PlaceArg(f), r, f.dsize)
    ensures B.Decode(StorePlace(f, r)) == B.StorePlace(PlaceArg(f), r, f.ssize)
    ensures B.Decode(LoadConstant(f, r)) == B.LoadConstant(Arg(f.data, Constant), r, f.dsize)
    ensures B.Decode(ConstantAddress(f, r)) == B.ConstantAddress(Arg(f.data, Constant), r)
  {
    hide B.Decode;
    PlaceCommands(f, r);
    ConstantCommands(f, r);
  }

  lemma PlaceCommands(f: Frame, r: nat)
    requires r < TWO64
    ensures B.Decode(LoadPlace(f, r)) == B.LoadPlace(PlaceArg(f), r, f.dsize)
    ensures B.Decode(StorePlace(f, r)) == B.StorePlace(PlaceArg(f), r, f.ssize)
  {
  }

  lemma ConstantCommands(f: Frame, r: nat)
    requires r < TWO64
    ensures B.Decode(LoadConstant(f, r)) == B.LoadConstant(Arg(f.data, Constant), r, f.dsize)
    ensures B.Decode(ConstantAddress(f, r)) == B.ConstantAddress(Arg(f.data, Constant), r)
  {
  }

  /** Loading the top operand puts its value in a register and disturbs nothing that is in use. */
  lemma LoadRefines(ctx: Context, g: GState, s: EState, c: B.Config) returns (code: seq<Command>, c': B.Config)
    requires Refines(ctx, g, s, c) && LoadOperand(ctx.env, g).Some?
    ensures s.stack != [] && CellOk(ctx, Top(s))
    ensures var o := LoadOperand(ctx.env, g).value;
            && o.rest.code == g.code + code && IsLine(ctx, code) && Exec(ctx, code, c) == Next(c')
            && Refines(ctx, o.rest, Drop(s, 1), c') && Spares(g.used, c, c')
            && o.frame.data < |c'.regs| && c'.regs[o.frame.data] == Fetch(ctx, s.mem, Top(s))
            && o.frame.dtype == Top(s).kind
  {
    hide Fetch, ContextOk, CellOk, LineOk, StepLine, LoadCommand, LoadedFrame, Owned, Distinct;
    RegistersFit(ctx);
    var o, t := LoadOperand(ctx.env, g).value, Top(s);
    var f := g.stack[|g.stack| - 1];
    assert Denotes(f, t, c.regs) && CellOk(ctx, s.stack[|s.stack| - 1]);
    LoadAgrees(ctx.env, g);
    StateDrop(ctx, s, 1);
    DenotePop(g.stack, s.stack, c.regs, 1);
    if Loaded(f) {
      code, c' := [], c;
      assert g.code + code == g.code;
      FetchValue(ctx, s.mem, t);
    } else {
      var r := LowestFree(g.used, ctx.env.general).value;
      code := [LoadCommand(ctx.env, f, r)];
      c' := B.SetReg(c, r, Fetch(ctx, c.mem, t));
      LoadCommandMeans(ctx, f, t, r, c);
      ExecOne(ctx, code[0], c);
      LineKeeps(ctx, code[0], c);
      OwnedRest(g);
      StillDenote(o.rest.stack, Drop(s, 1).stack, c, c', g.used);
    }
  }

  lemma RegistersFit(ctx: Context)
    requires ContextOk(ctx)
    ensures ctx.env.general <= B.GENERAL_REGISTERS && SpaceOk(ctx.space)
  {
  }

  lemma FetchValue(ctx: Context, mem: Memory, t: Cell)
    requires SpaceOk(ctx.space) && |mem| == ctx.space.end && CellOk(ctx, t) && t.Value?
    ensures Fetch(ctx, mem, t) == t.bits
  {
  }

  lemma OwnedRest(g: GState)
    requires g.stack != [] && Owned(g.stack) <= g.used
    ensures Owned(g.stack[..|g.stack| - 1]) <= g.used
  {
    var n := |g.stack| - 1;
    PopIsPush(g.stack);
    OwnedPush(g.stack[..n], g.stack[n]);
  }

  // ----- combining two loaded operands -----

  lemma ArithmeticMeaning(op: PseudoOpCode, t: Primitive)
    requires IsArithmetic(op) && IsCovered(op) && t != Real
    ensures Meaning(op, t).Some? && B.BinaryMeaning(ArithmeticCode(op, t)) == Meaning(op, t)
  {
  }

  lemma LogicMeaning(op: PseudoOpCode, t: Primitive)
    requires IsLogic(op) || IsBitLogic(op)
    ensures Meaning(op, t).Some? && B.BinaryMeaning(LogicCode(op, UInt)) == Meaning(op, t)
  {
  }

  /** The command of an operator has the operator's meaning. */
  lemma CodeMeansOperator(op: PseudoOpCode, t: Primitive, l: Word, r: Word)
    requires IsBinary(op) && IsCovered(op) && !IsComparison(op) && t != Real
    ensures var code := if IsArithmetic(op) then ArithmeticCode(op, t) else LogicCode(op, UInt);
            && Meaning(op, t).Some?
            && B.Decode(Operate(code, l, r)) == B.Binary(Meaning(op, t).value, l, l, r)
  {
    hide Meaning, ArithmeticCode, LogicCode, B.BinaryMeaning, B.UnaryMeaning, B.ComparisonMeaning;
    if IsArithmetic(op) {
      ArithmeticMeaning(op, t);
    } else {
      LogicMeaning(op, t);
    }
  }

  lemma CodeMeansComparison(op: PseudoOpCode, t: Primitive, l: Word, r: Word)
    requires IsComparison(op) && t != Real
    ensures B.Decode(Operate(LogicCode(op, t), l, r))
            == B.CompareTo(B.Comparison(RelationOf(op), t == Int), l, l, r)
  {
  }

  lemma CodeMeansUnary(op: PseudoOpCode, t: Primitive, r: Word)
    requires op == BitNot || (op == Negative && t == Int)
    ensures var code := if op == Negative then ArithmeticCode(op, t) else LogicCode(op, t);
            B.Decode(OperateOnce(code, r)) == B.Unary(if op == Negative then NegInt else BitwiseNot, r, r)
  {
  }

  lemma ConversionDecoded(from: Primitive, to: Primitive, r: Word)
    requires from != Real && to != Real
    ensures |Conversion(from, to, r)| <= 1
    ensures from != to ==> |Conversion(from, to, r)| == 1 && B.Decode(Conversion(from, to, r)[0]) == B.Retype
                           && B.CleanArguments(Conversion(from, to, r)[0])
    ensures from == to ==> Conversion(from, to, r) == []
  {
  }

  /** Conversions between integer types leave the bits as they are. */
  lemma ConversionMeans(ctx: Context, from: Primitive, to: Primitive, r: Word, c: B.Config)
    requires from != Real && to != Real && B.ConfigOk(ctx.space, c)
    ensures var code := Conversion(from, to, r);
            IsLine(ctx, code) && Exec(ctx, code, c) == Next(c.(pc := c.pc + |code|))
  {
    hide Conversion, B.Decode, B.CleanArguments;
    ConversionDecoded(from, to, r);
    var code := Conversion(from, to, r);
    if from != to {
      assert code == [code[0]];
      ExecOne(ctx, code[0], c);
    }
  }

  /** The common type of integers is unsigned as soon as one operand is. */
  lemma CommonInteger(a: Primitive, b: Primitive)
    requires a != Real && b != Real
    ensures CommonType(a, b) == if a == UInt || b == UInt then UInt else Int
  {
  }

  predicate InRegisters(ctx: Context, left: Frame, right: Frame, c: B.Config, a: Cell, b: Cell) {
    && B.ConfigOk(ctx.space, c) && Loaded(left) && Loaded(right)
    && left.data < |c.regs| && right.data < |c.regs|
    && a == Value(c.regs[left.data], left.dtype) && b == Value(c.regs[right.data], right.dtype)
    && left.dtype != Real && right.dtype != Real
  }

  /** After the operator the left register holds the result, or the machine stopped at a division by zero. */
  ghost predicate Combined(ctx: Context, code: seq<Command>, r: Word, c: B.Config, v: Option<Cell>)
    requires B.ConfigOk(ctx.space, c) && r < |c.regs|
  {
    IsLine(ctx, code) &&
    match v
    case Some(x) => x.Value? && Exec(ctx, code, c) == Next(c.(regs := c.regs[r := x.bits], pc := c.pc + |code|))
    case None => Exec(ctx, code, c) == Fault(ZeroDivision)
  }

  lemma AfterConversion(ctx: Context, from: Primitive, to: Primitive, r: Word, cmd: Command, d: Word, c: B.Config, v: Option<Cell>)
    requires from != Real && to != Real && B.ConfigOk(ctx.space, c) && d < |c.regs| && LineOk(ctx, cmd)
    requires v.Some? ==> v.value.Value?
    requires var c1 := c.(pc := c.pc + |Conversion(from, to, r)|);
             StepLine(ctx, cmd, c1) == match v case Some(x) => Next(B.SetReg(c1, d, x.bits)) case None => Fault(ZeroDivision)
    ensures Combined(ctx, Conversion(from, to, r) + [cmd], d, c, v)
  {
    hide LineOk, StepLine, Conversion;
    ConversionMeans(ctx, from, to, r, c);
    var x := Conversion(from, to, r);
    var c1 := c.(pc := c.pc + |x|);
    ExecOne(ctx, cmd, c1);
    ExecAppend(ctx, x, [cmd], c);
  }

  lemma OperateMeans(ctx: Context, op: PseudoOpCode, code: ByteOpCode, left: Frame, right: Frame, c: B.Config, a: Cell, b: Cell)
    requires InRegisters(ctx, left, right, c, a, b) && IsBinary(op) && IsCovered(op)
    requires code == (var t := CommonType(left.dtype, right.dtype);
                      if IsArithmetic(op) then ArithmeticCode(op, t)
                      else LogicCode(op, if IsComparison(op) then t else UInt))
    ensures LineOk(ctx, Operate(code, left.data, right.data))
    ensures StepLine(ctx, Operate(code, left.data, right.data), c) ==
            match Apply(op, a, b) case Some(x) => Next(B.SetReg(c, left.data, x.bits)) case None => Fault(ZeroDivision)
  {
    hide EvalBinary, Compare, B.Decode, ArithmeticCode, LogicCode, RelationOf, Meaning, IsComparison, IsArithmetic, IsLogic, IsBitLogic,
         ContextOk;
    OneKind(op);
    var t := CommonType(left.dtype, right.dtype);
    CommonInteger(left.dtype, right.dtype);
    if IsComparison(op) {
      CodeMeansComparison(op, t, left.data, right.data);
    } else {
      CodeMeansOperator(op, t, left.data, right.data);
    }
  }

  /** Every binary operator is of one kind. */
  lemma OneKind(op: PseudoOpCode)
    requires IsBinary(op)
    ensures IsComparison(op) <==> !IsArithmetic(op) && !IsLogic(op) && !IsBitLogic(op)
    ensures IsArithmetic(op) ==> !IsLogic(op) && !IsBitLogic(op)
  {
  }

  /** The code of a binary operator: a conversion, possibly none, and one command. */
  lemma CombineShape(op: PseudoOpCode, left: Frame, right: Frame)
    returns (from: Primitive, to: Primitive, r: Word, code: ByteOpCode)
    requires IsBinary(op) && Combine(op, left, right).Some? && left.dtype != Real && right.dtype != Real
    ensures from != Real && to != Real
    ensures code == (var t := CommonType(left.dtype, right.dtype);
                     if IsArithmetic(op) then ArithmeticCode(op, t)
                     else LogicCode(op, if IsComparison(op) then t else UInt))
    ensures Combine(op, left, right).value.0 == Conversion(from, to, r) + [Operate(code, left.data, right.data)]
    ensures Combine(op, left, right).value.1.dtype
            == if IsArithmetic(op) then CommonType(left.dtype, right.dtype) else UInt
  {
    hide ArithmeticCode, LogicCode, Conversion, CommonType, IsArithmetic, IsLogic, IsBitLogic, IsComparison;
    OneKind(op);
    var t := CommonType(left.dtype, right.dtype);
    CommonInteger(left.dtype, right.dtype);
    code := if IsArithmetic(op) then ArithmeticCode(op, t) else LogicCode(op, if IsComparison(op) then t else UInt);
    from, to, r := UInt, UInt, left.data;
    NoConversion(UInt, r);
    if IsArithmetic(op) || IsComparison(op) {
      to := t;
      if ConvertsLeft(left, right) {
        from := left.dtype;
      } else {
        from, r := right.dtype, right.data;
      }
    }
  }

  lemma ApplyType(op: PseudoOpCode, a: Cell, b: Cell)
    requires IsBinary(op) && IsCovered(op) && a.Value? && b.Value? && a.kind != Real && b.kind != Real
    ensures Apply(op, a, b).Some? ==>
              && Apply(op, a, b).value.Value?
              && Apply(op, a, b).value.kind == if IsArithmetic(op) then CommonType(a.kind, b.kind) else UInt
  {
    hide EvalBinary, Compare, RelationOf;
  }

  /** The commands of a binary operator compute it. */
  lemma CombineMeans(ctx: Context, op: PseudoOpCode, left: Frame, right: Frame, c: B.Config, a: Cell, b: Cell)
    requires InRegisters(ctx, left, right, c, a, b) && IsBinary(op) && IsCovered(op) && Combine(op, left, right).Some?
    ensures var done := Combine(op, left, right).value;
            && Combined(ctx, done.0, left.data, c, Apply(op, a, b))
            && (Apply(op, a, b).Some? ==> done.1.dtype == Apply(op, a, b).value.kind)
  {
    hide Apply, Combine, StepLine, LineOk, Combined, ArithmeticCode, LogicCode, Conversion, IsBinary, CommonType;
    var from, to, r, code := CombineShape(op, left, right);
    ApplyType(op, a, b);
    var c1 := c.(pc := c.pc + |Conversion(from, to, r)|);
    OperateMeans(ctx, op, code, left, right, c1, a, b);
    AfterConversion(ctx, from, to, r, Operate(code, left.data, right.data), left.data, c, Apply(op, a, b));
  }

  lemma NoConversion(t: Primitive, r: Word)
    ensures Conversion(t, t, r) == []
  {
  }

  // ----- operators -----

  /** What an operation may do to the configuration: the emitted code reaches a refined state or the same fault. */
  ghost predicate Outcomes(ctx: Context, g: GState, g': GState, s: EState, r: Result, c: B.Config, code: seq<Command>,
                           o: Outcome<B.Config>)
  {
    && B.ConfigOk(ctx.space, c)
    && g'.code == g.code + code && IsLine(ctx, code) && Exec(ctx, code, c) == o
    && match r
       case Done(s') => o.Next? && Refines(ctx, g', s', o.state) && Spares(Reserved(g), c, o.state)
       case DivisionByZero => o == Fault(ZeroDivision)
       case Stuck => false
  }

  /** Both operands in registers. */
  lemma LoadBothRefines(ctx: Context, g: GState, s: EState, c: B.Config) returns (code: seq<Command>, c': B.Config)
    requires Refines(ctx, g, s, c) && LoadBoth(ctx.env, g).Some?
    ensures |s.stack| >= 2 && CellOk(ctx, Top(s)) && CellOk(ctx, Second(s))
    ensures var x := LoadBoth(ctx.env, g).value;
            && x.rest.code == g.code + code && IsLine(ctx, code) && Exec(ctx, code, c) == Next(c')
            && Refines(ctx, x.rest, Drop(s, 2), c') && Spares(Reserved(g), c, c')
            && InRegisters(ctx, x.left, x.right, c', Read(ctx, s.mem, Second(s)), Read(ctx, s.mem, Top(s)))
  {
    hide LoadOperand, Fetch, ContextOk, CellOk, Denotes, AllDenote, Owned, Distinct, LineOk, Exec;
    var code1, c1 := LoadRefines(ctx, g, s, c);
    var right := LoadOperand(ctx.env, g).value;
    LoadAgrees(ctx.env, g);
    var s1 := Drop(s, 1);
    var code2, c2 := LoadRefines(ctx, right.rest, s1, c1);
    LoadAgrees(ctx.env, right.rest);
    var left := LoadOperand(ctx.env, right.rest).value;
    code, c' := code1 + code2, c2;
    ExecAppend(ctx, code1, code2, c);
    assert Top(s1) == Second(s) && Drop(s1, 1) == Drop(s, 2) by {
      assert s.stack[..|s.stack| - 1][..|s.stack| - 2] == s.stack[..|s.stack| - 2];
    }
    assert right.frame.data in right.rest.used;
    assert g.code + code1 + code2 == g.code + code;
    KindIsInteger(ctx, Top(s));
    KindIsInteger(ctx, Second(s));
  }

  lemma KindIsInteger(ctx: Context, c: Cell)
    requires CellOk(ctx, c)
    ensures c.kind != Real
  {
  }
}
