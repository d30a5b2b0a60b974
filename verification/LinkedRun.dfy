/** Whole runs: the linked code halts, faults and prints exactly as the byte program does. */
module LinkedRun {
  import opened Words
  import opened ByteCode
  import opened Machine
  import opened LinkSpec
  import opened Simulation
  import B = ByteMachine
  import V = VM

  // ----- from turns to runs of the code -----

  /** The decoded operations at ip. */
  ghost predicate Reads(code: seq<V.VMOp>, ip: nat, ops: seq<V.Instr>) {
    ip + |ops| <= |code| && forall k :: ip <= k < ip + |ops| ==> V.Decode(code[k]) == ops[k - ip]
  }

  lemma RunOne(space: Space, code: seq<V.VMOp>, v: V.VMState, i: V.Instr)
    requires V.StateOk(space, v) && Reads(code, v.ip, [i])
    ensures V.Run(space, code, v, 1) == V.Turn(space, i, v)
  {
    hide V.Turn, V.Decode;
    assert V.Decode(code[v.ip]) == i;
    V.TurnKeepsOk(space, i, v);
    var r := V.Turn(space, i, v);
    if r.Next? {
      assert V.Run(space, code, r.state, 0) == Next(r.state);
    }
  }

  lemma RunMore(space: Space, code: seq<V.VMOp>, v: V.VMState, i: V.Instr, v': V.VMState, n: nat)
    requires V.StateOk(space, v) && v.ip < |code| && V.Decode(code[v.ip]) == i
    requires V.Turn(space, i, v) == Next(v')
    ensures V.StateOk(space, v') && V.Run(space, code, v, n + 1) == V.Run(space, code, v', n)
  {
    hide V.Turn, V.Decode;
    V.TurnKeepsOk(space, i, v);
  }

  lemma RunSplit(space: Space, code: seq<V.VMOp>, v: V.VMState, m: nat, n: nat)
    requires V.StateOk(space, v)
    ensures var r := V.Run(space, code, v, m);
            match r {
              case Next(v') => V.StateOk(space, v') && V.Run(space, code, v, m + n) == V.Run(space, code, v', n)
              case Fault(e) => V.Run(space, code, v, m + n) == Fault(e)
            }
    decreases m
  {
    hide V.Turn, V.Decode;
    if m > 0 && v.ip < |code| {
      var i := V.Decode(code[v.ip]);
      V.TurnKeepsOk(space, i, v);
      if V.Turn(space, i, v).Next? {
        RunSplit(space, code, V.Turn(space, i, v).state, m - 1, n);
      }
    } else if m > 0 {
      assert V.Run(space, code, v, n) == Next(v);
    }
  }

  // ----- one byte step -----

  /** The code at a command's position decodes to its lowering. */
  lemma CodeIsLowering(l: Link, pc: nat, i: B.Instr) returns (target: Word)
    requires LinkOk(l) && pc < |l.program|
    requires i == B.Decode(l.program[pc].cmd)
    ensures B.Supported(l.layout, l.program, l.program[pc].m, i) && Named(l.layout, l.program[pc].m, i)
    ensures Reads(Linked(l.cs), Pos(l.cs, pc), Lower(l.layout, l.program[pc].m, i, target))
    ensures Pos(l.cs, pc + 1) == Pos(l.cs, pc) + |Lower(l.layout, l.program[pc].m, i, target)|
    ensures i.Jump? ==> target == Pos(l.cs, B.FindLabel(l.program, i.target))
  {
    hide B.Decode, B.Supported, V.Decode, Linked, Defs, Emit, Expansion, DecodeAll, Lower, CodeFrom, Named, Reads;
    var m, cmd, c := l.program[pc].m, l.program[pc].cmd, l.cs[pc];
    assert B.SupportedItem(l.layout, l.program, l.program[pc]);
    SupportedIsNamed(l.layout, l.program, m, i);
    RelocatedOperands(l.layout, m, cmd, c);
    ExpansionIsLowering(l.layout, m, cmd, c);
    CodeAt(l.cs, pc);
    DecodeAllLength(Expansion(c));
    if i.Jump? {
      LowerJump(l.layout, m, i, c.arg0.data);
      JumpCommand(cmd);
      target := JumpIsResolved(l, pc, i);
      LowerJump(l.layout, m, i, target);
    } else {
      target := c.arg0.data;
      OtherIsUnchanged(l, pc, i, target);
    }
  }

  lemma SupportedIsNamed(layout: Layout, program: seq<B.Item>, m: ModuleId, i: B.Instr)
    requires B.Supported(layout, program, m, i)
    ensures i != B.Unsupported && Named(layout, m, i)
  {
  }

  lemma DecodeAllLength(ops: seq<V.VMOp>)
    ensures |DecodeAll(ops)| == |ops|
  {
  }

  lemma LowerJump(layout: Layout, m: ModuleId, i: B.Instr, target: Word)
    requires Named(layout, m, i) && i.Jump?
    ensures Lower(layout, m, i, target) == [V.Jump(TestOf(i.test), target, i.r)]
  {
  }

  /** A jump's target is its first operand, which relocation leaves alone. */
  lemma JumpCommand(cmd: Command)
    requires B.Decode(cmd).Jump?
    ensures B.Decode(cmd).target == cmd.arg0.data && (B.CleanArguments(cmd) ==> B.NoReference(cmd.arg0))
  {
  }

  lemma OtherIsUnchanged(l: Link, pc: nat, i: B.Instr, target: Word)
    requires pc < |l.cs| && |l.cs| == |l.program| && Named(l.layout, l.program[pc].m, i) && !i.Jump?
    requires CodeFrom(Linked(l.cs), Defs(l.cs), Pos(l.cs, pc), Expansion(l.cs[pc]))
    requires DecodeAll(Expansion(l.cs[pc])) == Lower(l.layout, l.program[pc].m, i, target)
    ensures Reads(Linked(l.cs), Pos(l.cs, pc), Lower(l.layout, l.program[pc].m, i, target))
  {
    hide Expansion, Linked, Defs, Pos;
    var x, p, ops := Expansion(l.cs[pc]), Pos(l.cs, pc), Lower(l.layout, l.program[pc].m, i, target);
    forall k | p <= k < p + |x|
      ensures V.Decode(Linked(l.cs)[k]) == ops[k - p]
    {
      assert ops[k - p] == V.Decode(x[k - p]);
      NotJump(l.layout, l.program[pc].m, i, target, k - p);
      DecodedJump(x[k - p]);
    }
  }

  lemma NotJump(layout: Layout, m: ModuleId, i: B.Instr, target: Word, t: nat)
    requires Named(layout, m, i) && !i.Jump? && t < |Lower(layout, m, i, target)|
    ensures !Lower(layout, m, i, target)[t].Jump?
  {
  }

  lemma DecodedJump(op: V.VMOp)
    ensures V.Decode(op).Jump? <==> IsJumpCode(op.code)
    ensures IsJumpCode(op.code) ==>
              forall x: Word :: V.Decode(op.(arg0 := x)) == V.Decode(op).(target := x)
  {
  }

  lemma JumpIsResolved(l: Link, pc: nat, i: B.Instr) returns (target: Word)
    requires LinkOk(l) && pc < |l.cs| && i.Jump?
    requires B.Supported(l.layout, l.program, l.program[pc].m, i)
    requires CodeFrom(Linked(l.cs), Defs(l.cs), Pos(l.cs, pc), Expansion(l.cs[pc]))
    requires DecodeAll(Expansion(l.cs[pc])) == [V.Jump(TestOf(i.test), i.target, i.r)]
    ensures target == Pos(l.cs, B.FindLabel(l.program, i.target))
    ensures Reads(Linked(l.cs), Pos(l.cs, pc), [V.Jump(TestOf(i.test), target, i.r)])
  {
    hide Expansion, Linked, Defs, Emit, V.Decode, DecodeAll, LinkOk, Reads, CodeFrom, Resolve, Pos;
    var x, p := Expansion(l.cs[pc]), Pos(l.cs, pc);
    JumpHere(x, V.Jump(TestOf(i.test), i.target, i.r));
    JumpTargetHere(l, i, p);
    target := Pos(l.cs, B.FindLabel(l.program, i.target));
    JumpFilled(Linked(l.cs), Defs(l.cs), p, x, V.Jump(TestOf(i.test), i.target, i.r), target);
  }

  lemma JumpHere(x: seq<V.VMOp>, j: V.Instr)
    requires DecodeAll(x) == [j] && j.Jump?
    ensures |x| == 1 && V.Decode(x[0]) == j && IsJumpCode(x[0].code) && x[0].arg0 == j.target
  {
    hide V.Decode;
    assert V.Decode(x[0]) == DecodeAll(x)[0];
    DecodedJump(x[0]);
    JumpArgument(x[0]);
  }

  lemma JumpTargetHere(l: Link, i: B.Instr, pos: nat)
    requires LinkOk(l) && i.Jump? && B.FindLabel(l.program, i.target) < |l.program|
    ensures |l.cs| == |l.program|
    ensures var j := B.FindLabel(l.program, i.target);
            Pos(l.cs, j) < TWO64 && Target(Defs(l.cs), i.target, pos) == Some(Pos(l.cs, j))
  {
    hide Emit, Defs;
    JumpTarget(l, i.target, pos);
    EmitPrefix(l.cs, B.FindLabel(l.program, i.target));
  }

  lemma JumpFilled(code: seq<V.VMOp>, defs: seq<Def>, p: nat, x: seq<V.VMOp>, j: V.Instr, target: Word)
    requires CodeFrom(code, defs, p, x) && |x| == 1 && V.Decode(x[0]) == j && j.Jump?
    requires IsJumpCode(x[0].code) && x[0].arg0 == j.target && Target(defs, j.target, p) == Some(target)
    ensures Reads(code, p, [j.(target := target)])
  {
    hide V.Decode, Target;
    DecodedJump(x[0]);
    assert code[p] == Resolve(x[0], p, defs) == x[0].(arg0 := target);
  }

  lemma JumpArgument(op: V.VMOp)
    requires V.Decode(op).Jump?
    ensures V.Decode(op).target == op.arg0
  {
  }

  lemma LinkShape(l: Link)
    requires LinkOk(l)
    ensures B.SupportedProgram(l.layout, l.program) && |l.cs| == |l.program|
  {
  }

  /** One byte step is matched by as many VM turns as the command has operations. */
  lemma StepSimulated(l: Link, b: B.Config, v: V.VMState) returns (width: nat)
    requires LinkOk(l) && Related(l, b, v) && b.pc < |l.program|
    ensures Matches(l, B.Step(l.layout, l.space, l.program, b), V.Run(l.space, Linked(l.cs), v, width))
    ensures width == Pos(l.cs, b.pc + 1) - Pos(l.cs, b.pc) <= 3 && v.ip + width <= |Linked(l.cs)|
    ensures width == 0 ==> B.Step(l.layout, l.space, l.program, b) == Next(b.(pc := b.pc + 1))
  {
    hide B.StepInstr, B.Decode, V.Run, Lower, Matches, Linked, B.Supported, Named, LinkOk, Pos;
    var m, i, code := l.program[b.pc].m, B.Decode(l.program[b.pc].cmd), Linked(l.cs);
    LinkShape(l);
    var target := CodeIsLowering(l, b.pc, i);
    assert B.Step(l.layout, l.space, l.program, b) == B.StepInstr(l.layout, l.space, l.program, m, i, b);
    width := |Lower(l.layout, m, i, target)|;
    SupportedIsNamed(l.layout, l.program, m, i);
    InstrSimulated(l, code, b, v, m, i, target, width);
  }

  lemma InstrSimulated(l: Link, code: seq<V.VMOp>, b: B.Config, v: V.VMState, m: ModuleId, i: B.Instr, target: Word,
                       width: nat)
    requires Setting(l, b, v, m, i, width) && Named(l.layout, m, i) && i != B.Unsupported && |l.cs| == |l.program|
    requires width == |Lower(l.layout, m, i, target)| && Reads(code, v.ip, Lower(l.layout, m, i, target))
    requires i.Jump? ==> target == Pos(l.cs, B.FindLabel(l.program, i.target))
    ensures Matches(l, B.StepInstr(l.layout, l.space, l.program, m, i, b), V.Run(l.space, code, v, width))
    ensures width <= 3
    ensures width == 0 ==> B.StepInstr(l.layout, l.space, l.program, m, i, b) == Next(b.(pc := b.pc + 1))
  {
    if i.Skip? {
      SkipSimulated(l, code, b, v, m, i);
    } else if i.CompareTo? {
      ComparisonSimulated(l, code, b, v, m, i, target);
    } else if i.Grow? || i.Shrink? {
      StackSimulated(l, code, b, v, m, i, target);
    } else {
      SingleSimulated(l, code, b, v, m, i, target);
    }
  }

  lemma SkipSimulated(l: Link, code: seq<V.VMOp>, b: B.Config, v: V.VMState, m: ModuleId, i: B.Instr)
    requires Setting(l, b, v, m, i, 0) && i.Skip?
    ensures Matches(l, B.StepInstr(l.layout, l.space, l.program, m, i, b), V.Run(l.space, code, v, 0))
  {
  }

  lemma SingleSimulated(l: Link, code: seq<V.VMOp>, b: B.Config, v: V.VMState, m: ModuleId, i: B.Instr, target: Word)
    requires Named(l.layout, m, i) && Setting(l, b, v, m, i, |Lower(l.layout, m, i, target)|) && |l.cs| == |l.program|
    requires !(i.Skip? || i.CompareTo? || i.Grow? || i.Shrink? || i.Unsupported?)
    requires Reads(code, v.ip, Lower(l.layout, m, i, target))
    requires i.Jump? ==> target == Pos(l.cs, B.FindLabel(l.program, i.target))
    ensures |Lower(l.layout, m, i, target)| == 1
    ensures Matches(l, B.StepInstr(l.layout, l.space, l.program, m, i, b), V.Run(l.space, code, v, 1))
  {
    hide Related, V.Turn, B.StepInstr, V.Run, Matches;
    var ops := Lower(l.layout, m, i, target);
    assert |ops| == 1 && ops == [ops[0]];
    Agree(l, b, v);
    RunOne(l.space, code, v, ops[0]);
    if i.Jump? {
      JumpStep(l, b, v, m, i, target);
    } else {
      assert ops == Lower(l.layout, m, i, 0);
      if i.Binary? || i.Unary? {
        ArithmeticStep(l, b, v, m, i);
      } else if i.Move? || i.Number? || i.AddressOf? || i.ConstantAddress? {
        MoveStep(l, b, v, m, i);
      } else if i.Retype? || i.Call? {
        CallStep(l, b, v, m, i);
      } else if i.LoadBy? || i.LoadConstant? || i.LoadPlace? {
        LoadStep(l, b, v, m, i);
      } else {
        StoreStep(l, b, v, m, i);
      }
    }
  }

  lemma StackSimulated(l: Link, code: seq<V.VMOp>, b: B.Config, v: V.VMState, m: ModuleId, i: B.Instr, target: Word)
    requires Setting(l, b, v, m, i, 2) && (i.Grow? || i.Shrink?)
    requires Reads(code, v.ip, Lower(l.layout, m, i, target))
    ensures |Lower(l.layout, m, i, target)| == 2
    ensures Matches(l, B.StepInstr(l.layout, l.space, l.program, m, i, b), V.Run(l.space, code, v, 2))
  {
    hide Related, V.Turn, B.StepInstr, V.Run, Matches;
    var ops := Lower(l.layout, m, i, target);
    assert ops == Lower(l.layout, m, i, 0);
    Agree(l, b, v);
    StackTurns(l, b, v, m, i);
    var v1 := V.Turn(l.space, ops[0], v).state;
    assert V.Decode(code[v.ip]) == ops[0];
    assert V.Decode(code[v.ip + 1]) == ops[1];
    RunMore(l.space, code, v, ops[0], v1, 1);
    RunOne(l.space, code, v1, ops[1]);
  }

  lemma RunTwo(space: Space, code: seq<V.VMOp>, v: V.VMState, i: V.Instr, v': V.VMState, j: V.Instr)
    requires V.StateOk(space, v) && Reads(code, v.ip, [i, j])
    requires V.Turn(space, i, v) == Next(v') && v'.ip == v.ip + 1
    ensures V.StateOk(space, v') && V.Run(space, code, v, 2) == V.Turn(space, j, v')
  {
    hide V.Turn, V.Run, V.Decode;
    assert V.Decode(code[v.ip]) == [i, j][0] && V.Decode(code[v'.ip]) == [i, j][1];
    RunMore(space, code, v, i, v', 1);
    RunOne(space, code, v', j);
  }

  lemma RunThree(space: Space, code: seq<V.VMOp>, v: V.VMState, i: V.Instr, v1: V.VMState, j: V.Instr, v2: V.VMState,
                 k: V.Instr)
    requires V.StateOk(space, v) && Reads(code, v.ip, [i, j, k])
    requires V.Turn(space, i, v) == Next(v1) && v1.ip == v.ip + 1
    requires V.StateOk(space, v1) ==> V.Turn(space, j, v1) == Next(v2) && v2.ip == v.ip + 2
    ensures V.StateOk(space, v2) && V.Run(space, code, v, 3) == V.Turn(space, k, v2)
  {
    hide V.Turn, V.Run, V.Decode;
    assert V.Decode(code[v.ip]) == [i, j, k][0];
    RunMore(space, code, v, i, v1, 2);
    assert V.Decode(code[v1.ip]) == [i, j, k][1] && V.Decode(code[v1.ip + 1]) == [i, j, k][2];
    RunTwo(space, code, v1, j, v2, k);
  }

  lemma ComparisonSimulated(l: Link, code: seq<V.VMOp>, b: B.Config, v: V.VMState, m: ModuleId, i: B.Instr, target: Word)
    requires i.CompareTo? && Named(l.layout, m, i) && Setting(l, b, v, m, i, |Lower(l.layout, m, i, target)|)
    requires Reads(code, v.ip, Lower(l.layout, m, i, target))
    ensures Matches(l, B.StepInstr(l.layout, l.space, l.program, m, i, b),
                    V.Run(l.space, code, v, |Lower(l.layout, m, i, target)|))
  {
    hide V.Turn, V.Run, Matches, B.StepInstr, Compare, FlagOf, Reads;
    var ops, k, d := Lower(l.layout, m, i, target), i.c, i.d;
    CompareTurns(l, v, k, d, i.a, i.b);
    var g := V.SetComparison(v.flags.(jumped := false), k.signed, v.regs[i.a], v.regs[i.b]);
    var truth := Compare(k.rel, k.signed, v.regs[i.a], v.regs[i.b]);
    var (flag1, flag2, negate) := FlagOf(k.rel);
    var setting, getting := V.SetFlags(k.signed, i.a, i.b), V.GetFlag(d, flag1, flag2);
    var v1 := v.(ip := v.ip + 1, flags := g);
    var v2 := v1.(ip := v.ip + 2, regs := v.regs[d := Bool(truth != negate)]);
    if negate {
      var v3 := v2.(ip := v.ip + 3, regs := v2.regs[d := Bool(truth)]);
      assert ops == [setting, getting, V.Unary(LogicNot, d, d)];
      RunThree(l.space, code, v, setting, v1, getting, v2, V.Unary(LogicNot, d, d));
      NegateTurn(l.space, v2, d, truth != negate);
      CompareRelated(l, b, v, v3, m, i);
    } else {
      assert ops == [setting, getting];
      RunTwo(l.space, code, v, setting, v1, getting);
      CompareRelated(l, b, v, v2, m, i);
    }
  }

  lemma CompareRelated(l: Link, b: B.Config, v: V.VMState, v': V.VMState, m: ModuleId, i: B.Instr)
    requires i.CompareTo? && Related(l, b, v) && b.pc < |l.program| && B.Supported(l.layout, l.program, m, i)
    requires v'.regs == v.regs[i.d := Bool(Compare(i.c.rel, i.c.signed, v.regs[i.a], v.regs[i.b]))]
    requires v'.ip == Pos(l.cs, b.pc + 1) && v'.mem == v.mem && v'.output == v.output
    ensures Matches(l, B.StepInstr(l.layout, l.space, l.program, m, i, b), Next(v'))
  {
  }

  // ----- whole runs -----

  function ByteRun(l: Link, b: B.Config, n: nat): Outcome<B.Config>
    requires LinkOk(l) && B.ConfigOk(l.space, b)
  {
    B.Run(l.layout, l.space, l.program, b, n)
  }

  function CodeRun(l: Link, v: V.VMState, n: nat): Outcome<V.VMState>
    requires V.StateOk(l.space, v)
  {
    V.Run(l.space, Linked(l.cs), v, n)
  }

  /** A step that costs turns pays for a whole pass over the program. */
  lemma Budget(n: nat, pc: nat, pc1: nat, pc2: nat, width: nat, rest: nat, size: nat)
    requires pc <= size && pc1 <= size && (width == 0 ==> pc1 == pc + 1)
    requires n - 1 + pc1 <= pc2 + rest * (size + 1)
    ensures n + pc <= pc2 + (width + rest) * (size + 1)
  {
    assert (width + rest) * (size + 1) == width * (size + 1) + rest * (size + 1);
    if width > 0 {
      ProductAtLeast(width, size + 1);
    }
  }

  lemma ByteRunStep(l: Link, b: B.Config, n: nat)
    requires LinkOk(l) && B.ConfigOk(l.space, b) && b.pc < |l.program| && n > 0
    ensures var r := B.Step(l.layout, l.space, l.program, b);
            match r {
              case Next(b') => B.ConfigOk(l.space, b') && b'.pc <= |l.program| && ByteRun(l, b, n) == ByteRun(l, b', n - 1)
              case Fault(e) => ByteRun(l, b, n) == Fault(e)
            }
  {
    hide B.Step;
    B.StepKeepsOk(l.layout, l.space, l.program, b);
  }

  /**
   * Every run of the byte program is matched by a run of the linked code that ends in a related state or in the same
   * fault; while the byte program runs, it makes at most one pass over its commands between two VM turns.
   */
  lemma {:induction false} RunSimulated(l: Link, b: B.Config, v: V.VMState, n: nat) returns (m: nat)
    requires LinkOk(l) && Related(l, b, v)
    ensures B.ConfigOk(l.space, b) && V.StateOk(l.space, v)
    ensures Matches(l, ByteRun(l, b, n), CodeRun(l, v, m))
    ensures var r := ByteRun(l, b, n);
            r.Next? && r.state.pc < |l.program| ==> n + b.pc <= r.state.pc + m * (|l.program| + 1)
    decreases n
  {
    hide B.Step, B.Run, V.Run, Linked, Related, Pos, V.StateOk, B.ConfigOk;
    Agree(l, b, v);
    if n == 0 || b.pc >= |l.program| {
      m := 0;
      RunNothing(l, b, v, n);
    } else {
      var width := StepSimulated(l, b, v);
      ByteRunStep(l, b, n);
      var r := B.Step(l.layout, l.space, l.program, b);
      if r.Fault? {
        m := width;
      } else {
        var rest := RunSimulated(l, r.state, CodeRun(l, v, width).state, n - 1);
        m := width + rest;
        RunSplit(l.space, Linked(l.cs), v, width, rest);
        var last := ByteRun(l, b, n);
        if last.Next? && last.state.pc < |l.program| {
          Budget(n, b.pc, r.state.pc, last.state.pc, width, rest, |l.program|);
        }
      }
    }
  }

  lemma RunNothing(l: Link, b: B.Config, v: V.VMState, n: nat)
    requires LinkOk(l) && B.ConfigOk(l.space, b) && V.StateOk(l.space, v) && (n == 0 || b.pc >= |l.program|)
    ensures ByteRun(l, b, n) == Next(b) && CodeRun(l, v, 0) == Next(v)
  {
  }

  // ----- halting and faulting -----

  ghost predicate ByteEnds(l: Link, b: B.Config, n: nat, last: B.Config)
    requires LinkOk(l) && B.ConfigOk(l.space, b)
  {
    ByteRun(l, b, n) == Next(last) && last.pc == |l.program|
  }

  ghost predicate CodeEnds(l: Link, v: V.VMState, m: nat, last: V.VMState)
    requires V.StateOk(l.space, v)
  {
    CodeRun(l, v, m) == Next(last) && last.ip == |Linked(l.cs)|
  }

  /** The end of the program is the end of the code. */
  lemma AtEnd(l: Link, b: B.Config, v: V.VMState)
    requires LinkOk(l) && Related(l, b, v)
    ensures b.pc <= |l.program| && (b.pc == |l.program| ==> v.ip == |Linked(l.cs)|)
  {
    assert l.cs[..|l.cs|] == l.cs;
  }

  /** The byte program halts: the linked code halts in a related state. */
  lemma ByteHaltGivesCodeHalt(l: Link, b: B.Config, v: V.VMState, n: nat, last: B.Config) returns (m: nat, last': V.VMState)
    requires LinkOk(l) && Related(l, b, v) && ByteEnds(l, b, n, last)
    ensures V.StateOk(l.space, v) && CodeEnds(l, v, m, last') && Related(l, last, last')
  {
    m := RunSimulated(l, b, v, n);
    last' := CodeRun(l, v, m).state;
    AtEnd(l, last, last');
  }

  lemma HaltedStays(l: Link, v: V.VMState, m: nat, last: V.VMState, n: nat)
    requires V.StateOk(l.space, v) && CodeEnds(l, v, m, last) && n >= m
    ensures CodeRun(l, v, n) == Next(last)
  {
    hide V.Run, V.StateOk, Linked;
    RunSplit(l.space, Linked(l.cs), v, m, n - m);
    HaltedRun(l.space, Linked(l.cs), last, n - m);
  }

  lemma HaltedRun(space: Space, code: seq<V.VMOp>, v: V.VMState, n: nat)
    requires V.StateOk(space, v) && v.ip >= |code|
    ensures V.Run(space, code, v, n) == Next(v)
  {
  }

  lemma FaultStays(l: Link, v: V.VMState, m: nat, e: Error, n: nat)
    requires V.StateOk(l.space, v) && CodeRun(l, v, m) == Fault(e) && n >= m
    ensures CodeRun(l, v, n) == Fault(e)
  {
    hide V.Run, V.StateOk, Linked;
    RunSplit(l.space, Linked(l.cs), v, m, n - m);
  }

  /** At the end of the code only commands without operations are left, and the byte program runs through them. */
  lemma {:induction false} TrailingLabels(l: Link, b: B.Config, v: V.VMState) returns (n: nat, last: B.Config)
    requires LinkOk(l) && Related(l, b, v) && v.ip == |Linked(l.cs)|
    ensures B.ConfigOk(l.space, b)
    ensures ByteEnds(l, b, n, last) && Related(l, last, v)
    decreases |l.program| - b.pc
  {
    hide B.Step, V.Run;
    Agree(l, b, v);
    if b.pc == |l.program| {
      n, last := 0, b;
      RunNothing(l, b, v, 0);
    } else {
      var width := StepSimulated(l, b, v);
      RunNothing(l, b, v, 0);
      var b' := b.(pc := b.pc + 1);
      n, last := TrailingLabels(l, b', v);
      n := n + 1;
      ByteRunStep(l, b, n);
    }
  }

  lemma BudgetExceeded(m: nat, turns: nat, pc: nat, pc2: nat, size: nat)
    requires pc2 < size && (turns + 1) * (size + 1) + pc <= pc2 + m * (size + 1)
    ensures m > turns
  {
    var d := size + 1;
    assert (turns + 1) * d == turns * d + d;
    ProductMonotone(m, turns, d);
  }

  lemma ProductMonotone(a: nat, b: nat, d: nat)
    ensures a <= b ==> a * d <= b * d
  {
    if a <= b {
      assert (b - a) * d >= 0;
    }
  }

  /** The linked code halts: the byte program halts in a related state. */
  lemma CodeHaltGivesByteHalt(l: Link, b: B.Config, v: V.VMState, m: nat, last': V.VMState) returns (n: nat, last: B.Config)
    requires LinkOk(l) && Related(l, b, v) && CodeEnds(l, v, m, last')
    ensures B.ConfigOk(l.space, b) && ByteEnds(l, b, n, last) && Related(l, last, last')
  {
    hide B.Step, V.Run, B.Run, Linked, Related, LinkOk, V.StateOk, B.ConfigOk, Pos;
    Agree(l, b, v);
    n := (m + 1) * (|l.program| + 1);
    var turns := RunSimulated(l, b, v, n);
    var r := ByteRun(l, b, n);
    if r.Fault? {
      HaltedStays(l, v, m, last', m + turns);
      FaultStays(l, v, turns, r.error, m + turns);
      assert false;
    } else if r.state.pc < |l.program| {
      BudgetExceeded(turns, m, b.pc, r.state.pc, |l.program|);
      HaltedStays(l, v, m, last', turns);
      var more;
      more, last := TrailingLabels(l, r.state, last');
      ByteRunSplit(l, b, n, more);
      n := n + more;
    } else {
      last := r.state;
      var end := CodeRun(l, v, turns).state;
      AtEnd(l, last, end);
      HaltedStays(l, v, m, last', m + turns);
      HaltedStays(l, v, turns, end, m + turns);
    }
  }

  lemma {:induction false} ByteRunSplit(l: Link, b: B.Config, m: nat, n: nat)
    requires LinkOk(l) && B.ConfigOk(l.space, b)
    requires ByteRun(l, b, m).Next?
    ensures B.ConfigOk(l.space, ByteRun(l, b, m).state)
    ensures ByteRun(l, b, m + n) == ByteRun(l, ByteRun(l, b, m).state, n)
    decreases m
  {
    hide B.Step;
    if m > 0 && b.pc < |l.program| {
      ByteRunStep(l, b, m);
      ByteRunStep(l, b, m + n);
      ByteRunSplit(l, B.Step(l.layout, l.space, l.program, b).state, m - 1, n);
    }
  }

  /** The same faults, in both directions. */
  lemma ByteFaultGivesCodeFault(l: Link, b: B.Config, v: V.VMState, n: nat, e: Error) returns (m: nat)
    requires LinkOk(l) && Related(l, b, v) && ByteRun(l, b, n) == Fault(e)
    ensures V.StateOk(l.space, v) && CodeRun(l, v, m) == Fault(e)
  {
    m := RunSimulated(l, b, v, n);
  }

  lemma CodeFaultGivesByteFault(l: Link, b: B.Config, v: V.VMState, m: nat, e: Error) returns (n: nat)
    requires LinkOk(l) && Related(l, b, v) && CodeRun(l, v, m) == Fault(e)
    ensures B.ConfigOk(l.space, b) && ByteRun(l, b, n) == Fault(e)
  {
    hide B.Step, V.Run, B.Run, Linked, Related, LinkOk, V.StateOk, B.ConfigOk, Pos;
    Agree(l, b, v);
    n := (m + 1) * (|l.program| + 1);
    var turns := RunSimulated(l, b, v, n);
    var r := ByteRun(l, b, n);
    FaultStays(l, v, m, e, m + turns);
    if r.Fault? {
      FaultStays(l, v, turns, r.error, m + turns);
    } else if r.state.pc < |l.program| {
      BudgetExceeded(turns, m, b.pc, r.state.pc, |l.program|);
      FaultStays(l, v, m, e, turns);
      assert false;
    } else {
      AtEnd(l, r.state, CodeRun(l, v, turns).state);
      HaltedStays(l, v, turns, CodeRun(l, v, turns).state, m + turns);
      assert false;
    }
  }

  /** Halting, final states and faults of the linked code are exactly those of the byte program. */
  lemma LinkedCodeIsEquivalent(l: Link, b: B.Config, v: V.VMState)
    requires LinkOk(l) && Related(l, b, v)
    ensures B.ConfigOk(l.space, b) && V.StateOk(l.space, v)
    ensures (exists n: nat, last :: ByteEnds(l, b, n, last)) <==> (exists m: nat, last :: CodeEnds(l, v, m, last))
    ensures forall n: nat, m: nat, last, last' ::
              ByteEnds(l, b, n, last) && CodeEnds(l, v, m, last') ==> Related(l, last, last')
    ensures forall e :: (exists n: nat :: ByteRun(l, b, n) == Fault(e)) <==> (exists m: nat :: CodeRun(l, v, m) == Fault(e))
  {
    hide *;
    Agree(l, b, v);
    if exists n: nat, last :: ByteEnds(l, b, n, last) {
      var n: nat, last :| ByteEnds(l, b, n, last);
      var m, last' := ByteHaltGivesCodeHalt(l, b, v, n, last);
    }
    if exists m: nat, last :: CodeEnds(l, v, m, last) {
      var m: nat, last :| CodeEnds(l, v, m, last);
      var n, last' := CodeHaltGivesByteHalt(l, b, v, m, last);
    }
    forall n: nat, m: nat, last, last' | ByteEnds(l, b, n, last) && CodeEnds(l, v, m, last')
      ensures Related(l, last, last')
    {
      var m', last'' := ByteHaltGivesCodeHalt(l, b, v, n, last);
      SameEnd(l, v, m, last', m', last'');
    }
    forall e
      ensures (exists n: nat :: ByteRun(l, b, n) == Fault(e)) <==> (exists m: nat :: CodeRun(l, v, m) == Fault(e))
    {
      if exists n: nat :: ByteRun(l, b, n) == Fault(e) {
        var n: nat :| ByteRun(l, b, n) == Fault(e);
        var m := ByteFaultGivesCodeFault(l, b, v, n, e);
      }
      if exists m: nat :: CodeRun(l, v, m) == Fault(e) {
        var m: nat :| CodeRun(l, v, m) == Fault(e);
        var n := CodeFaultGivesByteFault(l, b, v, m, e);
      }
    }
  }

  lemma SameEnd(l: Link, v: V.VMState, m: nat, last: V.VMState, m': nat, last': V.VMState)
    requires V.StateOk(l.space, v) && CodeEnds(l, v, m, last) && CodeEnds(l, v, m', last')
    ensures last == last'
  {
    hide V.Run, V.StateOk, Linked;
    HaltedStays(l, v, m, last, m + m');
    HaltedStays(l, v, m', last', m + m');
  }
}
