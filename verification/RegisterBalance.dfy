/** The operand stack and the register table agree, and the registers that are never given back are counted exactly. */
module RegisterBalance {
  import opened Words
  import opened ByteCode
  import opened Pseudo
  import opened Registers
  import opened CodegenSpec

  /** The registers of the operands on the stack. */
  function Owned(stack: seq<Frame>): set<nat> {
    set k | 0 <= k < |stack| && Loaded(stack[k]) :: stack[k].data
  }

  /** Two operands never share a register. */
  ghost predicate Distinct(stack: seq<Frame>) {
    forall i, j :: 0 <= i < j < |stack| && Loaded(stack[i]) && Loaded(stack[j]) ==> stack[i].data != stack[j].data
  }

  predicate InRange(env: Env, used: set<nat>) {
    forall r :: r in used ==> r < env.general
  }

  /** Operands own distinct registers, all marked used. */
  ghost predicate Agrees(env: Env, g: GState) {
    env.general < TWO64 && Distinct(g.stack) && Owned(g.stack) <= g.used && InRange(env, g.used)
  }

  /** Used registers that no operand owns. */
  function Reserved(g: GState): set<nat> {
    g.used - Owned(g.stack)
  }

  // ----- pushing and popping -----

  lemma OwnedPush(stack: seq<Frame>, f: Frame)
    ensures Owned(stack + [f]) == if Loaded(f) then Owned(stack) + {f.data} else Owned(stack)
  {
    var s := stack + [f];
    assert forall k :: 0 <= k < |stack| ==> s[k] == stack[k];
    forall r | r in Owned(stack)
      ensures r in Owned(s)
    {
      var k :| 0 <= k < |stack| && Loaded(stack[k]) && stack[k].data == r;
      assert s[k] == stack[k];
    }
    if Loaded(f) {
      assert s[|stack|] == f;
    }
  }

  lemma PopIsPush(stack: seq<Frame>)
    requires stack != []
    ensures stack == stack[..|stack| - 1] + [stack[|stack| - 1]]
    ensures Distinct(stack) ==> Distinct(stack[..|stack| - 1])
    ensures var f := stack[|stack| - 1];
            Distinct(stack) && Loaded(f) ==> f.data !in Owned(stack[..|stack| - 1])
  {
  }

  lemma PushAgrees(env: Env, g: GState, f: Frame)
    requires Agrees(env, g) && (Loaded(f) ==> f.data in Reserved(g))
    ensures Agrees(env, Push(g, f))
    ensures Reserved(Push(g, f)) == if Loaded(f) then Reserved(g) - {f.data} else Reserved(g)
  {
    OwnedPush(g.stack, f);
  }

  /** Loading takes the operand off the stack and leaves its register reserved. */
  lemma LoadAgrees(env: Env, g: GState)
    requires Agrees(env, g) && LoadOperand(env, g).Some?
    ensures var o := LoadOperand(env, g).value;
            && Agrees(env, o.rest) && Loaded(o.frame) && o.frame.data !in Reserved(g)
            && Reserved(o.rest) == Reserved(g) + {o.frame.data} && g.used <= o.rest.used
  {
    PopIsPush(g.stack);
    OwnedPush(g.stack[..|g.stack| - 1], g.stack[|g.stack| - 1]);
  }

  lemma LoadBothAgrees(env: Env, g: GState)
    requires Agrees(env, g) && LoadBoth(env, g).Some?
    ensures var x := LoadBoth(env, g).value;
            && Agrees(env, x.rest) && x.left.data != x.right.data
            && x.left.data !in Reserved(g) && x.right.data !in Reserved(g)
            && Reserved(x.rest) == Reserved(g) + {x.left.data, x.right.data}
            && Loaded(x.left) && Loaded(x.right) && x.rest.stack == g.stack[..|g.stack| - 2]
  {
    hide LoadOperand, Owned, Distinct;
    LoadAgrees(env, g);
    var right := LoadOperand(env, g).value;
    LoadAgrees(env, right.rest);
    assert g.stack[..|g.stack| - 1][..|g.stack| - 2] == g.stack[..|g.stack| - 2];
  }

  lemma FreeAgrees(env: Env, g: GState, r: Word)
    requires Agrees(env, g) && r in Reserved(g)
    ensures Agrees(env, Free(g, r)) && Reserved(Free(g, r)) == Reserved(g) - {r}
  {
  }

  // ----- operators -----

  lemma ResultInLeftRegister(op: PseudoOpCode, left: Frame, right: Frame)
    requires Combine(op, left, right).Some? && Loaded(left)
    ensures var f := Combine(op, left, right).value.1; f.data == left.data && Loaded(f)
  {
  }

  lemma BinaryAgrees(env: Env, g: GState, op: PseudoOpCode)
    requires Agrees(env, g) && Binary(env, g, op).Some?
    ensures var g' := Binary(env, g, op).value;
            Agrees(env, g') && Reserved(g') == Reserved(g) && |g.stack| >= 2 && g'.stack[..|g'.stack| - 1] == g.stack[..|g.stack| - 2]
  {
    hide LoadBoth, Combine, Owned, Distinct;
    LoadBothAgrees(env, g);
    var x := LoadBoth(env, g).value;
    var done := Combine(op, x.left, x.right).value;
    ResultInLeftRegister(op, x.left, x.right);
    var h := Put(x.rest, done.0);
    assert Reserved(h) == Reserved(x.rest);
    FreeAgrees(env, h, x.right.data);
    PushAgrees(env, Free(h, x.right.data), done.1);
    assert |g.stack| >= 2 by { LoadBothNeedsTwo(env, g); }
  }

  lemma LoadBothNeedsTwo(env: Env, g: GState)
    requires env.general < TWO64 && LoadBoth(env, g).Some?
    ensures |g.stack| >= 2
  {
  }

  lemma UnaryAgrees(env: Env, g: GState, op: PseudoOpCode)
    requires Agrees(env, g) && Unary(env, g, op).Some?
    ensures var g' := Unary(env, g, op).value;
            Agrees(env, g') && Reserved(g') == Reserved(g) && |g.stack| >= 1 && g'.stack[..|g'.stack| - 1] == g.stack[..|g.stack| - 1]
  {
    hide LoadOperand, Owned, Distinct, LogicCode, ArithmeticCode;
    LoadAgrees(env, g);
    var x := LoadOperand(env, g).value;
    var g' := Unary(env, g, op).value;
    var h := g'.(stack := x.rest.stack);
    assert Reserved(h) == Reserved(x.rest) && Agrees(env, h);
    PushAgrees(env, h, x.frame);
  }

  /** An operator leaves exactly the registers reserved that were, and everything below its operands alone. */
  lemma OperatorAgrees(env: Env, g: GState, op: PseudoOpCode)
    requires Agrees(env, g) && Operator(env, g, op).Some?
    ensures var g' := Operator(env, g, op).value; Agrees(env, g') && Reserved(g') == Reserved(g)
  {
    hide Agrees, Reserved, Binary, Unary;
    if IsBinary(op) {
      BinaryAgrees(env, g, op);
    } else if op == Negative || op == BitNot {
      UnaryAgrees(env, g, op);
    }
  }

  // ----- whole operations -----

  /** Operations after which one more register is in use that no operand owns. */
  predicate Keeps(op: PseudoOp) {
    op.code == AssignR || op.code == JumpIf || op.code == JumpNIf
  }

  /** What an operation does to the reserved registers: nothing, or it keeps exactly one more. */
  ghost predicate Balanced(op: PseudoOp, g: GState, g': GState) {
    if Keeps(op) then exists r :: r !in Reserved(g) && Reserved(g') == Reserved(g) + {r}
    else Reserved(g') == Reserved(g)
  }

  lemma StoreAgrees(env: Env, g: GState, left: Frame, right: Frame, keeps: bool)
    requires Agrees(env, g) && right.data in Reserved(g) && StoreTo(g, left, right, keeps).Some?
    ensures var g' := StoreTo(g, left, right, keeps).value;
            && g'.stack == g.stack && Agrees(env, g')
            && Reserved(g') == if keeps then Reserved(g) else Reserved(g) - {right.data}
  {
    FreeAgrees(env, g, right.data);
  }

  lemma PlainAssignmentAgrees(env: Env, g: GState, op: PseudoOp)
    requires Agrees(env, g) && Assignment(env, g, op).Some? && op.compound == Nop
    requires op.code == Assign || op.code == AssignR
    ensures var g' := Assignment(env, g, op).value; Agrees(env, g') && Balanced(op, g, g')
  {
    hide LoadOperand, Owned, Distinct;
    LoadAgrees(env, g);
    var right := LoadOperand(env, g).value;
    var left := right.rest.stack[|right.rest.stack| - 1];
    StoreAgrees(env, right.rest, left, right.frame, op.code == AssignR);
    if op.code == AssignR {
      assert right.frame.data !in Reserved(g);
    } else {
      var stored := StoreTo(right.rest, left, right.frame, false).value;
      DropPlace(env, stored);
    }
  }

  /** Taking an operand that is not in a register off the stack changes no register. */
  lemma DropPlace(env: Env, g: GState)
    requires Agrees(env, g) && g.stack != [] && !Loaded(g.stack[|g.stack| - 1])
    ensures var g' := g.(stack := g.stack[..|g.stack| - 1]); Agrees(env, g') && Reserved(g') == Reserved(g)
  {
    PopIsPush(g.stack);
    OwnedPush(g.stack[..|g.stack| - 1], g.stack[|g.stack| - 1]);
  }

  lemma CompoundAssignmentAgrees(env: Env, g: GState, op: PseudoOp)
    requires Agrees(env, g) && Assignment(env, g, op).Some? && op.compound != Nop
    requires op.code == Assign || op.code == AssignR
    ensures var g' := Assignment(env, g, op).value; Agrees(env, g') && Balanced(op, g, g')
  {
    hide LoadOperand, Owned, Distinct, Operator;
    LoadAgrees(env, g);
    var right := LoadOperand(env, g).value;
    var left := right.rest.stack[|right.rest.stack| - 1];
    PushAgrees(env, right.rest, right.frame);
    var pushed := Push(right.rest, right.frame);
    OperatorAgrees(env, pushed, op.compound);
    var computed := Operator(env, pushed, op.compound).value;
    LoadAgrees(env, computed);
    var result := LoadOperand(env, computed).value;
    var h := if op.code == AssignR then Push(result.rest, left) else result.rest;
    if op.code == AssignR {
      assert !Loaded(left);
      PushAgrees(env, result.rest, left);
    }
    StoreAgrees(env, h, left, result.frame, op.code == AssignR);
    assert Reserved(computed) == Reserved(g);
    assert result.frame.data !in Reserved(g);
  }

  /** Every operation keeps the agreement and keeps exactly the registers it is known to keep. */
  lemma EmitAgrees(env: Env, g: GState, op: PseudoOp)
    requires Agrees(env, g) && EmitOp(env, g, op).Some?
    ensures var g' := EmitOp(env, g, op).value; Agrees(env, g') && Balanced(op, g, g')
  {
    hide LoadOperand, Owned, Distinct, Operator, Assignment;
    if op.code == Assign || op.code == AssignR {
      if op.compound == Nop {
        PlainAssignmentAgrees(env, g, op);
      } else {
        CompoundAssignmentAgrees(env, g, op);
      }
    } else if op.code == Use {
      PushAgrees(env, g, UseFrame(env.vars[op.arg0]));
    } else if op.code == UseConstant {
      PushAgrees(env, g, ConstantFrame(op.arg0, env.constants[op.arg0]));
    } else if op.code == JumpIf || op.code == JumpNIf {
      LoadAgrees(env, g);
      var r := LoadOperand(env, g).value.frame.data;
      assert r !in Reserved(g);
    } else if op.code != Label && op.code != Jump {
      OperatorAgrees(env, g, op.code);
    }
  }

  function Kept(ops: seq<PseudoOp>): nat {
    if ops == [] then 0 else (if Keeps(ops[0]) then 1 else 0) + Kept(ops[1..])
  }

  /** Over a whole translation the register table grows by one for every AssignR and every conditional jump. */
  lemma {:induction false} TranslationKeepsCount(env: Env, g: GState, ops: seq<PseudoOp>)
    requires Agrees(env, g) && EmitAll(env, g, ops).Some?
    ensures var g' := EmitAll(env, g, ops).value;
            Agrees(env, g') && Reserved(g) <= Reserved(g') && |Reserved(g')| == |Reserved(g)| + Kept(ops)
    decreases |ops|
  {
    hide EmitOp, Distinct, Owned, Reserved;
    if ops != [] {
      var next := EmitOp(env, g, ops[0]).value;
      EmitAgrees(env, g, ops[0]);
      if Keeps(ops[0]) {
        var r :| r !in Reserved(g) && Reserved(next) == Reserved(g) + {r};
      }
      TranslationKeepsCount(env, next, ops[1..]);
    }
  }

  /** A finished statement without nested assignments gives back every register it took. */
  lemma StatementRestoresRegisters(env: Env, g: GState, ops: seq<PseudoOp>)
    requires Agrees(env, g) && EmitAll(env, g, ops).Some?
    requires Kept(ops) == 0 && EmitAll(env, g, ops).value.stack == g.stack == []
    ensures EmitAll(env, g, ops).value.used == g.used
  {
    var g' := EmitAll(env, g, ops).value;
    TranslationKeepsCount(env, g, ops);
    SameSize(Reserved(g), Reserved(g'));
  }

  lemma SameSize(a: set<nat>, b: set<nat>)
    requires a <= b && |a| == |b|
    ensures a == b
  {
    assert |b - a| == |b| - |a| == 0;
    assert b == a + (b - a);
  }
}
