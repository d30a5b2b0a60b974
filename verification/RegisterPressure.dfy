/** How many registers an expression needs: translation succeeds exactly when that many are free. */
module RegisterPressure {
  import opened Words
  import opened ByteCode
  import opened Pseudo
  import opened Registers
  import opened CodegenSpec
  import opened RegisterBalance
  import opened Expressions

  // ----- counting registers -----

  /** All numbers below n. */
  function Below(n: nat): (s: set<nat>)
    ensures |s| == n && forall r: nat :: r in s <==> r < n
    decreases n
  {
    if n == 0 then {} else Below(n - 1) + {n - 1}
  }

  lemma SubsetSize(a: set<nat>, b: set<nat>)
    requires a <= b
    ensures |a| <= |b| && (|a| == |b| ==> a == b)
  {
    assert b == a + (b - a);
    assert |b| == |a| + |b - a|;
  }

  /** Allocation fails exactly when every general register is used. */
  lemma AllocationFails(env: Env, used: set<nat>)
    requires InRange(env, used)
    ensures LowestFree(used, env.general).None? <==> |used| == env.general
    ensures |used| <= env.general
  {
    var all := Below(env.general);
    assert used <= all;
    SubsetSize(used, all);
    if LowestFree(used, env.general).None? {
      assert used == all;
    } else {
      var free := LowestFree(used, env.general).value;
      assert free in all && free !in used;
      assert used != all;
    }
  }

  lemma UsedFits(env: Env, g: GState)
    requires Agrees(env, g)
    ensures |g.used| <= env.general
  {
    AllocationFails(env, g.used);
  }

  // ----- types -----

  /** Integer types only, and only constants that are represented by an address are big. */
  predicate IntegerEnv(env: Env) {
    && env.general < TWO64
    && (forall id :: id in env.vars ==> env.vars[id].kind != Real)
    && (forall k :: 0 <= k < |env.constants| ==>
          env.constants[k].kind != Real
          && (env.constants[k].size > POINTER_SIZE || env.constants[k].isString ==> env.constants[k].kind == UInt))
  }

  function TypeOf(env: Env, e: Expr): Primitive {
    match e
    case Var(id) => if id in env.vars then env.vars[id].kind else UInt
    case Const(k) => if k < |env.constants| then env.constants[k].kind else UInt
    case Bin(op, l, r) => if IsArithmetic(op) then CommonType(TypeOf(env, l), TypeOf(env, r)) else UInt
    case Un(_, a) => TypeOf(env, a)
  }

  /** A variable that is read must fit a register. */
  predicate Readable(env: Env, e: Expr) {
    e.Var? && e.id in env.vars ==> env.vars[e.id].size <= POINTER_SIZE
  }

  /** Names are known, what is read fits a register, and only signed values are negated. */
  predicate WellTyped(env: Env, e: Expr) {
    match e
    case Var(id) => id in env.vars
    case Const(k) => k < |env.constants|
    case Bin(_, l, r) => WellTyped(env, l) && WellTyped(env, r) && Readable(env, l) && Readable(env, r)
    case Un(op, a) => WellTyped(env, a) && Readable(env, a) && (op == Negative ==> TypeOf(env, a) != UInt)
  }

  // ----- the measure -----

  /** Registers an expression occupies once translated: none for a leaf, which is not loaded yet. */
  function Hold(e: Expr): nat {
    if e.Var? || e.Const? then 0 else 1
  }

  function Max(a: nat, b: nat): nat {
    if a < b then b else a
  }

  /** The registers that must be free: an unloaded left leaf costs nothing while the right side is computed. */
  function Need(e: Expr): nat {
    match e
    case Var(_) => 0
    case Const(_) => 0
    case Bin(_, l, r) => Max(Max(Need(l), Hold(l) + Need(r)), 2)
    case Un(_, a) => Max(Need(a), 1)
  }

  // ----- one load -----

  /** The frame of a translated expression. */
  predicate FrameOf(env: Env, f: Frame, e: Expr) {
    && f.dtype == TypeOf(env, e) && (Loaded(f) <==> Hold(e) == 1)
    && (f.holder == StaticAddress || f.holder == SymbolRef ==>
          f.stype == f.dtype && (f.dsize <= POINTER_SIZE <==> Readable(env, e)))
    && (f.holder == PointerInRegister ==> f.dtype == UInt && !f.typed)
    && (f.holder == ConstantRef ==> e.Const? && !f.typed && (IsBig(env, f) ==> f.dtype == UInt))
  }

  /** Loading an operand needs one free register when it is not loaded yet. */
  lemma LoadCount(env: Env, g: GState, e: Expr)
    requires Agrees(env, g) && g.stack != [] && FrameOf(env, g.stack[|g.stack| - 1], e)
    ensures LoadOperand(env, g).Some? <==> Readable(env, e) && |g.used| + (1 - Hold(e)) <= env.general
    ensures LoadOperand(env, g).Some? ==>
              var o := LoadOperand(env, g).value;
              && |o.rest.used| == |g.used| + (1 - Hold(e)) && o.rest.stack == g.stack[..|g.stack| - 1]
              && o.frame.dtype == TypeOf(env, e) && Loaded(o.frame)
              && (o.frame.holder == PointerInRegister ==> o.frame.dtype == UInt && !o.frame.typed)
  {
    AllocationFails(env, g.used);
  }

  // ----- operators -----

  /** When the two operands can be combined, and what comes out. */
  lemma CombineShape(env: Env, op: PseudoOpCode, left: Frame, right: Frame, l: Expr, r: Expr)
    requires IsBinary(op) && Loaded(left) && Loaded(right) && left.data != right.data
    requires left.dtype == TypeOf(env, l) != Real && right.dtype == TypeOf(env, r) != Real
    requires left.holder == PointerInRegister ==> left.dtype == UInt && !left.typed
    ensures Combine(op, left, right).Some? && FrameOf(env, Combine(op, left, right).value.1, Bin(op, l, r))
  {
    hide ArithmeticCode, LogicCode, Conversion;
  }

  lemma {:induction false} IntegerTypes(env: Env, e: Expr)
    requires IntegerEnv(env)
    ensures TypeOf(env, e) != Real
  {
    match e
    case Bin(_, l, r) =>
      IntegerTypes(env, l);
      IntegerTypes(env, r);
    case Un(_, a) => IntegerTypes(env, a);
    case _ =>
  }

  /** The stack holds the two translated operands of a binary operator above g's. */
  ghost predicate TwoAbove(env: Env, g: GState, g2: GState, l: Expr, r: Expr) {
    && Agrees(env, g2) && |g2.stack| == |g.stack| + 2 && g2.stack[..|g.stack|] == g.stack
    && FrameOf(env, g2.stack[|g.stack|], l) && FrameOf(env, g2.stack[|g.stack| + 1], r)
    && |g2.used| == |g.used| + Hold(l) + Hold(r)
  }

  /** The state after an expression is translated. */
  ghost predicate OneAbove(env: Env, g: GState, g1: GState, e: Expr) {
    && Agrees(env, g1) && |g1.stack| == |g.stack| + 1 && g1.stack[..|g.stack|] == g.stack
    && FrameOf(env, g1.stack[|g.stack|], e) && |g1.used| == |g.used| + Hold(e)
  }

  lemma BinaryCount(env: Env, g: GState, g2: GState, op: PseudoOpCode, l: Expr, r: Expr)
    requires IntegerEnv(env) && IsBinary(op) && TwoAbove(env, g, g2, l, r)
    ensures Binary(env, g2, op).Some? <==> Readable(env, l) && Readable(env, r) && |g.used| + 2 <= env.general
    ensures Binary(env, g2, op).Some? ==> OneAbove(env, g, Binary(env, g2, op).value, Bin(op, l, r))
  {
    hide LoadOperand, Combine, FrameOf, Owned, Distinct, IsBinary;
    LoadCount(env, g2, r);
    var first := LoadOperand(env, g2);
    if first.Some? {
      var g1 := first.value.rest;
      LoadAgrees(env, g2);
      assert g1.stack == g2.stack[..|g.stack| + 1] && g1.stack[|g.stack|] == g2.stack[|g.stack|];
      LoadCount(env, g1, l);
      var second := LoadOperand(env, g1);
      if second.Some? {
        LoadAgrees(env, g1);
        IntegerTypes(env, l);
        IntegerTypes(env, r);
        var left, right := second.value.frame, first.value.frame;
        CombineShape(env, op, left, right, l, r);
        BinaryResult(env, g, g1, g2, op, l, r);
      }
    }
  }

  /** After a binary operator the right register is free again. */
  lemma BinaryResult(env: Env, g: GState, g1: GState, g2: GState, op: PseudoOpCode, l: Expr, r: Expr)
    requires TwoAbove(env, g, g2, l, r) && LoadOperand(env, g2).Some? && g1 == LoadOperand(env, g2).value.rest
    requires LoadOperand(env, g1).Some? && Binary(env, g2, op).Some?
    requires |LoadOperand(env, g1).value.rest.used| == |g.used| + 2
    requires var left, right := LoadOperand(env, g1).value.frame, LoadOperand(env, g2).value.frame;
             FrameOf(env, Combine(op, left, right).value.1, Bin(op, l, r))
    ensures OneAbove(env, g, Binary(env, g2, op).value, Bin(op, l, r))
  {
    hide LoadOperand, Combine, FrameOf, Owned, Distinct;
    LoadBothAgrees(env, g2);
    BinaryAgrees(env, g2, op);
    var g' := Binary(env, g2, op).value;
    var x := LoadBoth(env, g2).value;
    assert x.right.data in x.rest.used;
    assert g'.used == x.rest.used - {x.right.data};
    assert g'.stack[..|g.stack|] == g2.stack[..|g2.stack| - 2];
  }

  lemma UnaryCount(env: Env, g: GState, g1: GState, op: PseudoOpCode, a: Expr)
    requires IntegerEnv(env) && (op == Negative || op == BitNot) && OneAbove(env, g, g1, a)
    ensures Unary(env, g1, op).Some? <==>
              && Readable(env, a) && (op == Negative ==> TypeOf(env, a) != UInt) && |g.used| + 1 <= env.general
    ensures Unary(env, g1, op).Some? ==> OneAbove(env, g, Unary(env, g1, op).value, Un(op, a))
  {
    hide LoadOperand, Owned, Distinct, LogicCode, ArithmeticCode;
    LoadCount(env, g1, a);
    if Unary(env, g1, op).Some? {
      UnaryAgrees(env, g1, op);
      assert g1.stack[..|g1.stack| - 1] == g.stack;
    }
  }

  // ----- the bound is exact -----

  /**
   * An expression is translated exactly when it is well typed and as many general registers are free as it needs.
   * Afterwards it holds one register, or none when it is a leaf.
   */
  lemma {:induction false} PressureIsExact(env: Env, g: GState, e: Expr)
    requires IntegerEnv(env) && Agrees(env, g) && OperatorsOk(e)
    ensures EmitAll(env, g, Compile(e)).Some? <==> WellTyped(env, e) && |g.used| + Need(e) <= env.general
    ensures EmitAll(env, g, Compile(e)).Some? ==> OneAbove(env, g, EmitAll(env, g, Compile(e)).value, e)
    decreases e
  {
    hide OneAbove, Agrees;
    UsedFits(env, g);
    match e {
      case Var(_) => LeafCount(env, g, e);
      case Const(_) => LeafCount(env, g, e);
      case Bin(op, l, r) => BinaryPressure(env, g, op, l, r);
      case Un(op, a) => UnaryPressure(env, g, op, a);
    }
  }

  lemma LastOperator(env: Env, g: GState, op: PseudoOpCode)
    requires env.general < TWO64 && (IsBinary(op) || op == Negative || op == BitNot)
    ensures EmitAll(env, g, [Op(op)]) == if IsBinary(op) then Binary(env, g, op) else Unary(env, g, op)
  {
    hide Binary, Unary;
    EmitLast(env, g, Op(op));
  }

  lemma LeafCount(env: Env, g: GState, e: Expr)
    requires IntegerEnv(env) && Agrees(env, g) && (e.Var? || e.Const?)
    ensures EmitAll(env, g, Compile(e)).Some? <==> WellTyped(env, e)
    ensures EmitAll(env, g, Compile(e)).Some? ==> OneAbove(env, g, EmitAll(env, g, Compile(e)).value, e)
  {
    hide Owned, Distinct;
    var op := Compile(e)[0];
    assert Compile(e)[1..] == [];
    var r := EmitOp(env, g, op);
    if r.Some? {
      assert EmitAll(env, r.value, []) == r;
      EmitAgrees(env, g, op);
    }
  }

  lemma {:induction false} BinaryPressure(env: Env, g: GState, op: PseudoOpCode, l: Expr, r: Expr)
    requires IntegerEnv(env) && Agrees(env, g) && OperatorsOk(Bin(op, l, r))
    ensures var e := Bin(op, l, r);
            && (EmitAll(env, g, Compile(e)).Some? <==> WellTyped(env, e) && |g.used| + Need(e) <= env.general)
            && (EmitAll(env, g, Compile(e)).Some? ==> OneAbove(env, g, EmitAll(env, g, Compile(e)).value, e))
    decreases Bin(op, l, r), 0
  {
    hide OneAbove, Agrees, Binary, Readable, TypeOf;
    EmitAllAppend(env, g, Compile(l) + Compile(r), [Op(op)]);
    EmitAllAppend(env, g, Compile(l), Compile(r));
    PressureIsExact(env, g, l);
    if EmitAll(env, g, Compile(l)).Some? {
      var g1 := EmitAll(env, g, Compile(l)).value;
      OneAboveAgrees(env, g, g1, l);
      PressureIsExact(env, g1, r);
      if EmitAll(env, g1, Compile(r)).Some? {
        var g2 := EmitAll(env, g1, Compile(r)).value;
        OneOnOne(env, g, g1, g2, l, r);
        BinaryCount(env, g, g2, op, l, r);
        LastOperator(env, g2, op);
      }
    }
  }

  lemma {:induction false} UnaryPressure(env: Env, g: GState, op: PseudoOpCode, a: Expr)
    requires IntegerEnv(env) && Agrees(env, g) && OperatorsOk(Un(op, a))
    ensures var e := Un(op, a);
            && (EmitAll(env, g, Compile(e)).Some? <==> WellTyped(env, e) && |g.used| + Need(e) <= env.general)
            && (EmitAll(env, g, Compile(e)).Some? ==> OneAbove(env, g, EmitAll(env, g, Compile(e)).value, e))
    decreases Un(op, a), 0
  {
    hide OneAbove, Agrees, Unary, Readable, TypeOf;
    NotBinary(op);
    EmitAllAppend(env, g, Compile(a), [Op(op)]);
    PressureIsExact(env, g, a);
    if EmitAll(env, g, Compile(a)).Some? {
      var g1 := EmitAll(env, g, Compile(a)).value;
      UnaryCount(env, g, g1, op, a);
      LastOperator(env, g1, op);
    }
  }

  lemma OneAboveAgrees(env: Env, g: GState, g1: GState, e: Expr)
    requires OneAbove(env, g, g1, e)
    ensures Agrees(env, g1) && |g1.used| == |g.used| + Hold(e)
  {
  }

  lemma OneOnOne(env: Env, g: GState, g1: GState, g2: GState, l: Expr, r: Expr)
    requires OneAbove(env, g, g1, l) && OneAbove(env, g1, g2, r)
    ensures TwoAbove(env, g, g2, l, r)
  {
    hide FrameOf;
    assert g2.stack[..|g.stack|] == g2.stack[..|g1.stack|][..|g.stack|];
    assert g2.stack[|g.stack|] == g2.stack[..|g1.stack|][|g.stack|];
  }

  // ----- consequences -----

  /** Chains that lean to the right over leaves, however long, need only two registers. */
  predicate RightLeaning(e: Expr) {
    match e
    case Var(_) => true
    case Const(_) => true
    case Bin(_, l, r) => (l.Var? || l.Const?) && RightLeaning(r)
    case Un(_, _) => false
  }

  lemma {:induction false} RightLeaningNeedsTwo(e: Expr)
    requires RightLeaning(e)
    ensures Need(e) <= 2
  {
    if e.Bin? {
      RightLeaningNeedsTwo(e.right);
    }
  }

  function Depth(e: Expr): nat {
    match e
    case Bin(_, l, r) => 1 + Max(Depth(l), Depth(r))
    case Un(_, a) => 1 + Depth(a)
    case _ => 0
  }

  /** No expression needs more registers than its depth, plus one. */
  lemma {:induction false} NeedAtMostDepth(e: Expr)
    ensures Need(e) <= Depth(e) + 1 && (Depth(e) == 0 ==> Need(e) == 0)
  {
    match e
    case Bin(_, l, r) =>
      NeedAtMostDepth(l);
      NeedAtMostDepth(r);
    case Un(_, a) => NeedAtMostDepth(a);
    case _ =>
  }
}
