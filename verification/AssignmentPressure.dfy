/** How many registers an assignment needs: its translation succeeds exactly when that many are free. */
module AssignmentPressure {
  import opened Words
  import opened ByteCode
  import opened Pseudo
  import opened CodegenSpec
  import opened RegisterBalance
  import opened RegisterPressure
  import opened StackHeight
  import C = CompiledCode
  import E = Expressions

  /** Names are known, what is read fits a register, and only signed values are negated. */
  predicate AssignmentTyped(env: Env, a: E.Assignment) {
    && a.target in env.vars && (a.compound != Nop ==> Readable(env, E.Var(a.target)))
    && match a.source
       case Plain(e) => WellTyped(env, e) && Readable(env, e)
       case Chain(inner) => AssignmentTyped(env, inner) && Readable(env, E.Var(inner.target))
  }

  /** Registers that the nested assignments have kept when the source is there. */
  function KeptBySource(a: E.Assignment): nat {
    match a.source
    case Plain(_) => 0
    case Chain(inner) => 1 + C.Nested(inner)
  }

  /** The source's own need, then one register for its value, and one more for the target's value in a compound assignment. */
  function AssignmentNeed(a: E.Assignment): nat {
    Max(match a.source case Plain(e) => Need(e) case Chain(inner) => AssignmentNeed(inner),
        KeptBySource(a) + if a.compound == Nop then 1 else 2)
  }

  /** What stands for the source once it is translated: itself, or the target of the nested assignment. */
  function SourceValue(a: E.Assignment): E.Expr {
    match a.source
    case Plain(e) => e
    case Chain(inner) => E.Var(inner.target)
  }

  // ----- the last operation -----

  /** The target's place and the translated source lie above g's stack. */
  ghost predicate SourceReady(env: Env, g: GState, g1: GState, target: Word, e: E.Expr, kept: nat) {
    && target in env.vars && Agrees(env, g1) && |g1.stack| == |g.stack| + 2 && g1.stack[..|g.stack|] == g.stack
    && g1.stack[|g.stack|] == UseFrame(env.vars[target]) && FrameOf(env, g1.stack[|g.stack| + 1], e)
    && |g1.used| == |g.used| + Hold(e) + kept
  }

  ghost predicate StoredStack(env: Env, g: GState, g': GState, target: Word, code: PseudoOpCode)
    requires target in env.vars
  {
    g'.stack == if code == AssignR then g.stack + [UseFrame(env.vars[target])] else g.stack
  }

  lemma PlainStore(env: Env, g: GState, g1: GState, code: PseudoOpCode, target: Word, e: E.Expr, kept: nat)
    requires IntegerEnv(env) && SourceReady(env, g, g1, target, e, kept) && (code == Assign || code == AssignR)
    ensures var r := Assignment(env, g1, PseudoOp(code, 0, Nop));
            && (r.Some? <==> Readable(env, e) && |g.used| + kept + 1 <= env.general)
            && (r.Some? ==> StoredStack(env, g, r.value, target, code))
  {
    hide LoadOperand, FrameOf, Agrees, Conversion;
    LoadCount(env, g1, e);
    assert g1.stack[..|g1.stack| - 1][|g.stack|] == UseFrame(env.vars[target]);
    assert g1.stack[..|g.stack| + 1] == g.stack + [UseFrame(env.vars[target])];
  }

  /** A loaded value, as something computed that has its type. */
  function AsLoaded(e: E.Expr): E.Expr {
    E.Un(BitNot, e)
  }

  lemma LoadedIsAbove(env: Env, g: GState, g1: GState, target: Word, e: E.Expr, kept: nat) returns (base: GState)
    requires IntegerEnv(env) && SourceReady(env, g, g1, target, e, kept) && LoadOperand(env, g1).Some?
    ensures var right := LoadOperand(env, g1).value;
            && base.stack == g.stack && |base.used| == |g.used| + kept
            && TwoAbove(env, base, Push(right.rest, right.frame), E.Var(target), AsLoaded(e))
  {
    hide LoadOperand, Owned, Distinct;
    LoadCount(env, g1, e);
    LoadAgrees(env, g1);
    var right := LoadOperand(env, g1).value;
    PushAgrees(env, right.rest, right.frame);
    base := GState(g.stack, right.rest.used - {right.frame.data}, []);
  }

  lemma CompoundStore(env: Env, g: GState, g1: GState, code: PseudoOpCode, compound: PseudoOpCode, target: Word, e: E.Expr, kept: nat)
    requires IntegerEnv(env) && SourceReady(env, g, g1, target, e, kept) && (code == Assign || code == AssignR) && IsBinary(compound)
    ensures var r := Assignment(env, g1, PseudoOp(code, 0, compound));
            && (r.Some? <==> Readable(env, e) && Readable(env, E.Var(target)) && |g.used| + kept + 2 <= env.general)
            && (r.Some? ==> StoredStack(env, g, r.value, target, code))
  {
    hide LoadOperand, FrameOf, Agrees, Conversion, Binary, IsBinary, Readable;
    assert compound != Nop by { NopIsNotBinary(); }
    LoadCount(env, g1, e);
    UsedFits(env, g1);
    if LoadOperand(env, g1).Some? {
      var right := LoadOperand(env, g1).value;
      var pushed := Push(right.rest, right.frame);
      var base := LoadedIsAbove(env, g, g1, target, e, kept);
      AlwaysReadable(env, e);
      BinaryCount(env, base, pushed, compound, E.Var(target), AsLoaded(e));
      LeftBelow(g, g1, right.rest, UseFrame(env.vars[target]));
      if Binary(env, pushed, compound).Some? {
        var computed := Binary(env, pushed, compound).value;
        AboveLoads(env, base, computed, E.Bin(compound, E.Var(target), AsLoaded(e)));
      }
    }
  }

  lemma NopIsNotBinary()
    ensures !IsBinary(Nop)
  {
  }

  lemma AlwaysReadable(env: Env, e: E.Expr)
    ensures Readable(env, AsLoaded(e))
  {
  }

  lemma LeftBelow(g: GState, g1: GState, rest: GState, f: Frame)
    requires |g1.stack| == |g.stack| + 2 && g1.stack[..|g.stack|] == g.stack && g1.stack[|g.stack|] == f
    requires rest.stack == g1.stack[..|g1.stack| - 1]
    ensures rest.stack == g.stack + [f] && rest.stack[|rest.stack| - 1] == f
  {
    assert g1.stack[..|g.stack| + 1] == g1.stack[..|g.stack|] + [g1.stack[|g.stack|]];
  }

  lemma AboveLoads(env: Env, g: GState, g1: GState, e: E.Expr)
    requires OneAbove(env, g, g1, e) && Hold(e) == 1 && e.Bin?
    ensures LoadOperand(env, g1).Some? && LoadOperand(env, g1).value.rest.stack == g.stack
  {
    hide FrameOf;
    UsedFits(env, g1);
    LoadCount(env, g1, e);
  }

  // ----- whole assignments -----

  lemma TargetUsed(env: Env, g: GState, target: Word)
    requires IntegerEnv(env) && Agrees(env, g)
    ensures EmitAll(env, g, [PseudoOp(Use, target, Nop)])
         == if target in env.vars then Some(Push(g, UseFrame(env.vars[target]))) else None
    ensures target in env.vars ==> Agrees(env, Push(g, UseFrame(env.vars[target])))
  {
    hide Agrees;
    var use := PseudoOp(Use, target, Nop);
    var r := EmitOp(env, g, use);
    assert [use][1..] == [];
    if r.Some? {
      assert EmitAll(env, r.value, []) == r;
      EmitAgrees(env, g, use);
    }
  }

  lemma LastAssignment(env: Env, g: GState, op: PseudoOp)
    requires env.general < TWO64 && (op.code == Assign || op.code == AssignR)
    ensures EmitAll(env, g, [op]) == Assignment(env, g, op)
  {
    EmitLast(env, g, op);
  }

  function SourceCode(a: E.Assignment): seq<PseudoOp> {
    match a.source case Plain(e) => E.Compile(e) case Chain(inner) => E.CompileAssignment(inner, AssignR)
  }

  function SourceNeed(a: E.Assignment): nat {
    match a.source case Plain(e) => Need(e) case Chain(inner) => AssignmentNeed(inner)
  }

  predicate SourceTyped(env: Env, a: E.Assignment) {
    match a.source case Plain(e) => WellTyped(env, e) case Chain(inner) => AssignmentTyped(env, inner)
  }

  /** The source is translated on top of the target's place. */
  lemma {:induction false} SourceStep(env: Env, g: GState, a: E.Assignment)
    requires IntegerEnv(env) && Agrees(env, g) && ShapeOk(a) && a.target in env.vars
    ensures var r := EmitAll(env, Push(g, UseFrame(env.vars[a.target])), SourceCode(a));
            && (r.Some? <==> SourceTyped(env, a) && |g.used| + SourceNeed(a) <= env.general)
            && (r.Some? ==> SourceReady(env, g, r.value, a.target, SourceValue(a), KeptBySource(a)))
    decreases a, 0
  {
    hide EmitAll, E.Compile, E.CompileAssignment, WellTyped, Need, Agrees, FrameOf;
    TargetUsed(env, g, a.target);
    var g0 := Push(g, UseFrame(env.vars[a.target]));
    assert g0.stack[..|g.stack|] == g.stack;
    match a.source {
      case Plain(e) =>
        PressureIsExact(env, g0, e);
        if EmitAll(env, g0, E.Compile(e)).Some? {
          SourceAbove(env, g, g0, EmitAll(env, g0, E.Compile(e)).value, a.target, e);
        }
      case Chain(inner) =>
        AssignmentPressureIsExact(env, g0, inner, AssignR);
        if EmitAll(env, g0, E.CompileAssignment(inner, AssignR)).Some? {
          NestedAbove(env, g, g0, EmitAll(env, g0, E.CompileAssignment(inner, AssignR)).value, a.target, inner);
        }
    }
  }

  lemma SourceAbove(env: Env, g: GState, g0: GState, g1: GState, target: Word, e: E.Expr)
    requires target in env.vars && g0 == Push(g, UseFrame(env.vars[target])) && OneAbove(env, g0, g1, e)
    ensures SourceReady(env, g, g1, target, e, 0)
  {
    hide FrameOf, Agrees;
    assert g1.stack[..|g0.stack|][..|g.stack|] == g.stack && g1.stack[..|g0.stack|][|g.stack|] == g0.stack[|g.stack|];
  }

  lemma NestedAbove(env: Env, g: GState, g0: GState, g1: GState, target: Word, inner: E.Assignment)
    requires IntegerEnv(env) && target in env.vars && inner.target in env.vars && g0 == Push(g, UseFrame(env.vars[target]))
    requires Agrees(env, g1) && StoredStack(env, g0, g1, inner.target, AssignR) && |g1.used| == |g.used| + 1 + C.Nested(inner)
    ensures SourceReady(env, g, g1, target, E.Var(inner.target), 1 + C.Nested(inner))
  {
    hide Agrees;
    assert g1.stack[..|g0.stack|] == g0.stack;
    assert g1.stack[..|g.stack|] == g0.stack[..|g.stack|] == g.stack;
  }

  /**
   * An assignment is translated exactly when it is well typed and as many general registers are free as it needs. It leaves the operand
   * stack as it was, or the target's place on it when its value is used, and one more register taken for each value used.
   */
  lemma {:induction false} AssignmentPressureIsExact(env: Env, g: GState, a: E.Assignment, code: PseudoOpCode)
    requires IntegerEnv(env) && Agrees(env, g) && ShapeOk(a) && (code == Assign || code == AssignR)
    ensures var r := EmitAll(env, g, E.CompileAssignment(a, code));
            && (r.Some? <==> AssignmentTyped(env, a) && |g.used| + AssignmentNeed(a) <= env.general)
            && (r.Some? ==> && Agrees(env, r.value) && StoredStack(env, g, r.value, a.target, code)
                            && |r.value.used| == |g.used| + C.Nested(a) + if code == AssignR then 1 else 0)
    decreases a, 1
  {
    hide EmitAll, E.Compile, Agrees, SourceReady, StoredStack, AssignmentNeed, AssignmentTyped, SourceTyped, SourceNeed, Readable, ShapeOk,
         Assignment;
    var use, last := PseudoOp(Use, a.target, Nop), PseudoOp(code, 0, a.compound);
    EmitAllAppend(env, g, [use] + SourceCode(a), [last]);
    EmitAllAppend(env, g, [use], SourceCode(a));
    TargetUsed(env, g, a.target);
    ShapeParts(a);
    if a.target in env.vars {
      var g0 := Push(g, UseFrame(env.vars[a.target]));
      SourceStep(env, g, a);
      if EmitAll(env, g0, SourceCode(a)).Some? {
        var g1 := EmitAll(env, g0, SourceCode(a)).value;
        LastAssignment(env, g1, last);
        if a.compound == Nop {
          PlainStore(env, g, g1, code, a.target, SourceValue(a), KeptBySource(a));
        } else {
          CompoundStore(env, g, g1, code, a.compound, a.target, SourceValue(a), KeptBySource(a));
        }
      }
    }
    Conditions(env, g, a);
    if EmitAll(env, g, E.CompileAssignment(a, code)).Some? {
      UsedAfter(env, g, a, code);
    }
  }

  lemma ShapeParts(a: E.Assignment)
    requires ShapeOk(a)
    ensures a.compound == Nop || IsBinary(a.compound)
  {
  }

  /** The conditions of the three steps are those of the assignment. */
  lemma Conditions(env: Env, g: GState, a: E.Assignment)
    ensures AssignmentTyped(env, a) <==>
              && a.target in env.vars && SourceTyped(env, a) && Readable(env, SourceValue(a))
              && (a.compound != Nop ==> Readable(env, E.Var(a.target)))
    ensures |g.used| + AssignmentNeed(a) <= env.general <==>
              && |g.used| + SourceNeed(a) <= env.general
              && |g.used| + KeptBySource(a) + (if a.compound == Nop then 1 else 2) <= env.general
  {
    hide WellTyped, Need;
  }

  lemma UsedAfter(env: Env, g: GState, a: E.Assignment, code: PseudoOpCode)
    requires IntegerEnv(env) && Agrees(env, g) && ShapeOk(a) && (code == Assign || code == AssignR) && a.target in env.vars
    requires EmitAll(env, g, E.CompileAssignment(a, code)).Some?
    requires StoredStack(env, g, EmitAll(env, g, E.CompileAssignment(a, code)).value, a.target, code)
    ensures var g' := EmitAll(env, g, E.CompileAssignment(a, code)).value;
            Agrees(env, g') && |g'.used| == |g.used| + C.Nested(a) + if code == AssignR then 1 else 0
  {
    hide EmitAll, E.CompileAssignment, ShapeOk, Owned, Distinct, Reserved, Agrees, Kept;
    var ops := E.CompileAssignment(a, code);
    var g' := EmitAll(env, g, ops).value;
    TranslationKeepsCount(env, g, ops);
    C.AssignmentKeeps(a, code);
    OwnedPush(g.stack, UseFrame(env.vars[a.target]));
    ReservedSize(env, g);
    ReservedSize(env, g');
  }

  lemma ReservedSize(env: Env, g: GState)
    requires Agrees(env, g)
    ensures |g.used| == |Reserved(g)| + |Owned(g.stack)|
  {
    hide Owned, Distinct;
    assert g.used == Reserved(g) + Owned(g.stack);
  }
}
