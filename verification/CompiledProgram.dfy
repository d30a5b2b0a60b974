/** A structured program over compiled statements: its linked code does on the machine what the program means. */
module CompiledProgram {
  import opened Words
  import opened ByteCode
  import opened Machine
  import opened Pseudo
  import opened LoweringSpec
  import opened BreakScoping
  import opened StructuredMeaning
  import opened CodegenSpec
  import opened RegisterBalance
  import opened StackEvaluator
  import opened CodegenCorrect
  import opened CodegenRun
  import opened CompiledCode
  import opened LevelCode
  import opened FlatCodegen
  import opened Simulation
  import opened LinkedRun
  import B = ByteMachine
  import BR = BudgetedRuns
  import LC = LoweringCorrect
  import V = VM

  // ----- what operations, conditions and faults mean -----

  ghost function Act(ctx: Context, op: PseudoOp, r: Result): Result {
    match r
    case Done(s) => if StateOk(ctx, s) && Straight(op) then EvalOp(ctx, s, op) else Stuck
    case _ => r
  }

  /** The operand on top is not zero. */
  ghost predicate Test(ctx: Context, r: Result) {
    r.Done? && StateOk(ctx, r.state) && r.state.stack != [] && Fetch(ctx, r.state.mem, Top(r.state)) != 0
  }

  ghost function Rest(r: Result): Result {
    match r
    case Done(s) => if s.stack != [] then Done(Drop(s, 1)) else Stuck
    case _ => r
  }

  /** States are those of the reference stack machine; a division by zero is never left again. */
  ghost function MeaningOf(ctx: Context): Meaning<Result> {
    Meaning((op, r) => Act(ctx, op, r), r => Test(ctx, r), r => Rest(r))
  }

  lemma FaultsForGood(ctx: Context)
    ensures BR.ForGood(MeaningOf(ctx), (r: Result) => r.DivisionByZero?)
  {
  }

  // ----- the compiled program -----

  ghost predicate SmallIds(code: seq<POp>) {
    forall k :: 0 <= k < |code| ==>
      match code[k] case Mark(id) => id < TWO64 case Goto(id) => id < TWO64 case GotoUnless(id) => id < TWO64 case _ => true
  }

  /** The linked program is what code generation makes of the flat code, from a fresh start. */
  ghost predicate Compiled(ctx: Context, l: Link, code: seq<POp>) {
    && ContextOk(ctx) && LinkOk(l) && l.layout == ctx.layout && l.space == ctx.space
    && Level(code, 0) && Unique(code) && Closed(code) && SmallIds(code)
    && StateAt(ctx.env, code, |code|).Some?
    && |l.program| == |StateAt(ctx.env, code, |code|).value.code|
    && Holds(ctx, l.program, 0, StateAt(ctx.env, code, |code|).value.code)
  }

  /** The byte machine is where the flat run is, in a state that refines the flat one. */
  ghost predicate Sim(ctx: Context, code: seq<POp>, k: nat, s: EState, c: B.Config) {
    && k <= |code| && StateAt(ctx.env, code, k).Some? && Refines(ctx, StateAt(ctx.env, code, k).value, s, c)
    && c.pc == |StateAt(ctx.env, code, k).value.code|
  }

  lemma StateHere(ctx: Context, l: Link, code: seq<POp>, k: nat)
    requires Compiled(ctx, l, code) && k <= |code|
    ensures StateAt(ctx.env, code, k).Some?
    ensures StateAt(ctx.env, code, k).value.code <= StateAt(ctx.env, code, |code|).value.code
    ensures Agrees(ctx.env, StateAt(ctx.env, code, k).value)
    ensures Level(code[k..], |StateAt(ctx.env, code, k).value.stack|)
  {
    hide StateAt, LinkOk, Level, Unique, Closed, SmallIds;
    StateBefore(ctx.env, code, k, |code|);
    CommandsStay(ctx.env, code, k, |code|);
    AgreesAt(ctx.env, code, k);
    LevelAt(ctx.env, code, k);
  }

  /** The commands of operation k stand in the program where the run is. */
  lemma CommandsHere(ctx: Context, l: Link, code: seq<POp>, k: nat, cmds: seq<Command>)
    requires Compiled(ctx, l, code) && k < |code| && StateAt(ctx.env, code, k).Some? && StateAt(ctx.env, code, k + 1).Some?
    requires StateAt(ctx.env, code, k + 1).value.code == StateAt(ctx.env, code, k).value.code + cmds
    ensures Holds(ctx, l.program, |StateAt(ctx.env, code, k).value.code|, cmds)
  {
    hide StateAt, LinkOk, Level, Unique, Closed, SmallIds;
    StateHere(ctx, l, code, k + 1);
    var p, all := |StateAt(ctx.env, code, k).value.code|, StateAt(ctx.env, code, |code|).value.code;
    forall i | p <= i < p + |cmds|
      ensures l.program[i] == B.Item(ctx.m, cmds[i - p])
    {
      assert StateAt(ctx.env, code, k + 1).value.code[i] == cmds[i - p];
      assert all[i] == cmds[i - p];
    }
  }

  lemma {:induction false} ExecMoves(ctx: Context, cmds: seq<Command>, c: B.Config)
    requires B.ConfigOk(ctx.space, c) && IsLine(ctx, cmds)
    ensures var o := Exec(ctx, cmds, c); o.Next? ==> o.state.pc == c.pc + |cmds|
    decreases |cmds|
  {
    hide LineOk, StepLine;
    if cmds != [] {
      LineKeeps(ctx, cmds[0], c);
      var r := StepLine(ctx, cmds[0], c);
      if r.Next? {
        ExecMoves(ctx, cmds[1..], r.state);
      }
    }
  }

  // ----- one flat step -----

  /** After b steps the byte machine is where the flat run goes next, or has faulted as it has. */
  ghost predicate Stepped(ctx: Context, l: Link, code: seq<POp>, next: Conf<Result>, c: B.Config, b: nat)
    requires LinkOk(l) && B.ConfigOk(l.space, c)
  {
    match next.s
    case Done(s) => ByteRun(l, c, b).Next? && Sim(ctx, code, next.pc, s, ByteRun(l, c, b).state)
    case DivisionByZero => ByteRun(l, c, b) == Fault(ZeroDivision)
    case Stuck => false
  }

  lemma PlainStep(ctx: Context, l: Link, code: seq<POp>, k: nat, s: EState, c: B.Config) returns (b: nat)
    requires Compiled(ctx, l, code) && k < |code| && code[k].Plain? && Sim(ctx, code, k, s, c)
    ensures B.ConfigOk(l.space, c) && StateOk(ctx, s)
    ensures var next := StructuredMeaning.Step(MeaningOf(ctx), code, Conf(k, Done(s)));
            next.pc == k + 1 && Stepped(ctx, l, code, next, c, b)
  {
    hide StateAt, LinkOk, Level, Unique, Closed, SmallIds, EmitOp, EvalOp, Straight, Refines, Outcomes, Exec, IsLine, B.Run, StateOk, ContextOk;
    var g, op := StateAt(ctx.env, code, k).value, code[k].op;
    Unfold(ctx, g, s, c);
    StateHere(ctx, l, code, k);
    StateHere(ctx, l, code, k + 1);
    StateStep(ctx.env, code, k);
    PlainIsStraight(code, k, |g.stack|);
    var cmds, o := OperationRefines(ctx, g, s, c, op);
    var g' := StateAt(ctx.env, code, k + 1).value;
    OutcomeKind(ctx, g, g', s, EvalOp(ctx, s, op), c, cmds, o);
    OutcomeCode(ctx, g, g', s, EvalOp(ctx, s, op), c, cmds, o);
    CommandsHere(ctx, l, code, k, cmds);
    LinkShape(l);
    CodeRuns(ctx, l.program, cmds, c);
    ExecMoves(ctx, cmds, c);
    b := |cmds|;
    assert ByteRun(l, c, b) == o;
    assert StructuredMeaning.Step(MeaningOf(ctx), code, Conf(k, Done(s))) == Conf(k + 1, EvalOp(ctx, s, op));
  }

  lemma PlainIsStraight(code: seq<POp>, k: nat, h: int)
    requires k < |code| && Level(code[k..], h) && code[k].Plain?
    ensures Straight(code[k].op)
  {
    assert code[k..][0] == code[k];
  }

  /** With no operands, any place without operands in the generator's view will do. */
  lemma EmptyRefines(ctx: Context, g: GState, g': GState, s: EState, c: B.Config, pc: nat)
    requires Refines(ctx, g, s, c) && g.stack == [] && g'.stack == [] && Agrees(ctx.env, g')
    ensures Refines(ctx, g', s, c.(pc := pc))
  {
  }

  /** A label command stands where its label does. */
  lemma LabelHere(ctx: Context, l: Link, code: seq<POp>, j: nat)
    requires Compiled(ctx, l, code) && j < |code| && code[j].Mark?
    ensures StateAt(ctx.env, code, j).Some? && StateAt(ctx.env, code, j + 1).Some?
    ensures var p := |StateAt(ctx.env, code, j).value.code|;
            && StateAt(ctx.env, code, j + 1).value == Put(StateAt(ctx.env, code, j).value, [Cmd(JMP_LABEL, Number(Wrap(code[j].id)), NoArg(), NoArg())])
            && p < |l.program| && B.FindLabel(l.program, Wrap(code[j].id)) == p
            && l.program[p] == B.Item(ctx.m, Cmd(JMP_LABEL, Number(Wrap(code[j].id)), NoArg(), NoArg()))
  {
    hide StateAt, LinkOk, Level, Unique, Closed, SmallIds, EmitOp;
    StateHere(ctx, l, code, j);
    StateHere(ctx, l, code, j + 1);
    StateStep(ctx.env, code, j);
    var g := StateAt(ctx.env, code, j).value;
    var cmd := Cmd(JMP_LABEL, Number(Wrap(code[j].id)), NoArg(), NoArg());
    EmitAdds(ctx.env, g, AsPseudo(code[j]));
    CommandsHere(ctx, l, code, j, [cmd]);
    var p := |g.code|;
    assert l.program[p] == B.Item(ctx.m, [cmd][p - p]);
    LabelUnique(l, p, Wrap(code[j].id));
  }

  lemma LabelUnique(l: Link, p: nat, id: Word)
    requires LinkOk(l) && p < |l.program| && B.IsLabel(l.program[p].cmd, id)
    ensures B.FindLabel(l.program, id) == p
  {
    var i := B.FindLabel(l.program, id);
    assert i <= p;
    assert l.program[i].cmd.code == JMP_LABEL && l.program[i].cmd.arg0.data == id;
  }

  /** A command that stands where the run is, executed. */
  lemma CommandRuns(l: Link, c: B.Config, item: B.Item)
    requires LinkOk(l) && B.ConfigOk(l.space, c) && c.pc < |l.program| && l.program[c.pc] == item
    ensures B.Supported(l.layout, l.program, item.m, B.Decode(item.cmd))
    ensures ByteRun(l, c, 1) == B.StepInstr(l.layout, l.space, l.program, item.m, B.Decode(item.cmd), c)
  {
    hide B.StepInstr, B.Decode, B.Supported;
    LinkShape(l);
    assert B.SupportedItem(l.layout, l.program, l.program[c.pc]);
    B.StepKeepsOk(l.layout, l.space, l.program, c);
    var r := B.Step(l.layout, l.space, l.program, c);
    if r.Next? {
      assert B.Run(l.layout, l.space, l.program, r.state, 0) == Next(r.state);
    }
  }

  lemma LabelDecoded(id: Word)
    ensures B.Decode(Cmd(JMP_LABEL, Number(id), NoArg(), NoArg())) == B.Skip
  {
  }

  lemma JumpDecoded(id: Word)
    ensures B.Decode(Cmd(JMP, Number(id), NoArg(), NoArg())) == B.Jump(B.Always, id, 0)
  {
  }

  lemma LabelsDecoded(id: Word, r: Word)
    ensures B.Decode(Cmd(JMP_LABEL, Number(id), NoArg(), NoArg())) == B.Skip
    ensures B.Decode(Cmd(JMP, Number(id), NoArg(), NoArg())) == B.Jump(B.Always, id, 0)
    ensures B.Decode(Cmd(JMPCNV, Number(id), Reg(r), NoArg())) == B.Jump(B.IfClear, id, r)
  {
    hide B.Decode;
    LabelDecoded(id);
    JumpDecoded(id);
    LeaveDecoded(id, r);
  }

  lemma LeaveDecoded(id: Word, r: Word)
    ensures B.Decode(Cmd(JMPCNV, Number(id), Reg(r), NoArg())) == B.Jump(B.IfClear, id, r)
  {
  }

  /** What the three label and jump commands do. */
  lemma LabelEffect(l: Link, m: ModuleId, c: B.Config, id: Word)
    requires B.ConfigOk(l.space, c)
    ensures var i := B.Decode(Cmd(JMP_LABEL, Number(id), NoArg(), NoArg()));
            B.Supported(l.layout, l.program, m, i) ==> B.StepInstr(l.layout, l.space, l.program, m, i, c) == Next(c.(pc := c.pc + 1))
  {
    hide B.Decode;
    LabelsDecoded(id, 0);
  }

  lemma JumpEffect(l: Link, m: ModuleId, c: B.Config, id: Word)
    requires B.ConfigOk(l.space, c)
    ensures var i, p := B.Decode(Cmd(JMP, Number(id), NoArg(), NoArg())), B.FindLabel(l.program, id);
            B.Supported(l.layout, l.program, m, i) ==>
              p < |l.program| && B.StepInstr(l.layout, l.space, l.program, m, i, c) == Next(c.(pc := p))
  {
    hide B.Decode;
    LabelsDecoded(id, 0);
  }

  lemma LeaveEffect(l: Link, m: ModuleId, c: B.Config, id: Word, r: Word)
    requires B.ConfigOk(l.space, c) && r < |c.regs|
    ensures var i, p := B.Decode(Cmd(JMPCNV, Number(id), Reg(r), NoArg())), B.FindLabel(l.program, id);
            B.Supported(l.layout, l.program, m, i) ==>
              p < |l.program| && B.StepInstr(l.layout, l.space, l.program, m, i, c) == Next(c.(pc := if c.regs[r] == 0 then p else c.pc + 1))
  {
    hide B.Decode;
    LabelsDecoded(id, r);
  }

  lemma MarkStep(ctx: Context, l: Link, code: seq<POp>, k: nat, s: EState, c: B.Config)
    requires Compiled(ctx, l, code) && k < |code| && code[k].Mark? && Sim(ctx, code, k, s, c)
    ensures B.ConfigOk(l.space, c) && StateOk(ctx, s) && c.pc < |l.program|
    ensures Stepped(ctx, l, code, StructuredMeaning.Step(MeaningOf(ctx), code, Conf(k, Done(s))), c, 1)
  {
    hide StateAt, LinkOk, Unique, Closed, SmallIds, EmitOp, Refines, B.Run, StateOk, ContextOk, B.Decode, B.StepInstr, B.Supported, Agrees;
    var g := StateAt(ctx.env, code, k).value;
    Unfold(ctx, g, s, c);
    LabelHere(ctx, l, code, k);
    StateHere(ctx, l, code, k);
    StateHere(ctx, l, code, k + 1);
    assert code[k..][0] == code[k];
    CommandRuns(l, c, l.program[c.pc]);
    LabelEffect(l, ctx.m, c, Wrap(code[k].id));
    EmptyRefines(ctx, g, StateAt(ctx.env, code, k + 1).value, s, c, c.pc + 1);
  }

  /** Where a jump goes: its label is declared, and nothing is on the operand stack there. */
  lemma JumpArrives(ctx: Context, l: Link, code: seq<POp>, id: nat)
    requires Compiled(ctx, l, code) && id < TWO64 && B.FindLabel(l.program, id) < |l.program|
    ensures Find(code, id) < |code|
    ensures var j := Find(code, id);
            && StateAt(ctx.env, code, j).Some? && |StateAt(ctx.env, code, j).value.code| == B.FindLabel(l.program, id)
            && StateAt(ctx.env, code, j).value.stack == [] && Agrees(ctx.env, StateAt(ctx.env, code, j).value)
  {
    hide StateAt, LinkOk, Unique, Closed, EmitOp, ContextOk, Straight, Level, AsPseudo, SmallIds;
    var p, total := B.FindLabel(l.program, id), StateAt(ctx.env, code, |code|).value.code;
    assert l.program[p].cmd == total[p];
    var j := LabelComesFrom(ctx.env, code, |code|, p);
    StateHere(ctx, l, code, j);
    LabelIsMark(code, j, |StateAt(ctx.env, code, j).value.stack|, id);
    MarkFound(code, j, id);
  }

  lemma LabelIsMark(code: seq<POp>, j: nat, h: int, id: nat)
    requires SmallIds(code) && j < |code| && Level(code[j..], h) && AsPseudo(code[j]).code == Label && AsPseudo(code[j]).arg0 == id
    ensures code[j] == Mark(id) && h == 0
  {
    assert code[j..][0] == code[j];
  }

  lemma GotoStep(ctx: Context, l: Link, code: seq<POp>, k: nat, s: EState, c: B.Config)
    requires Compiled(ctx, l, code) && k < |code| && code[k].Goto? && Sim(ctx, code, k, s, c)
    ensures B.ConfigOk(l.space, c) && StateOk(ctx, s) && c.pc < |l.program|
    ensures Stepped(ctx, l, code, StructuredMeaning.Step(MeaningOf(ctx), code, Conf(k, Done(s))), c, 1)
  {
    hide StateAt, LinkOk, Unique, Closed, Refines, B.Run, StateOk, ContextOk, B.Decode, B.StepInstr, B.Supported, Agrees;
    var g, id := StateAt(ctx.env, code, k).value, code[k].id;
    Unfold(ctx, g, s, c);
    StateHere(ctx, l, code, k);
    StateHere(ctx, l, code, k + 1);
    StateStep(ctx.env, code, k);
    assert code[k..][0] == code[k];
    var cmd := Cmd(JMP, Number(id), NoArg(), NoArg());
    CommandsHere(ctx, l, code, k, [cmd]);
    assert l.program[c.pc] == B.Item(ctx.m, [cmd][c.pc - c.pc]);
    CommandRuns(l, c, l.program[c.pc]);
    JumpEffect(l, ctx.m, c, id);
    JumpArrives(ctx, l, code, id);
    EmptyRefines(ctx, g, StateAt(ctx.env, code, Find(code, id)).value, s, c, B.FindLabel(l.program, id));
  }

  /** What stands for a conditional jump: the commands that load the condition, then the jump. */
  lemma ConditionCommands(ctx: Context, l: Link, code: seq<POp>, k: nat, s: EState, c: B.Config)
    returns (load: seq<Command>, c1: B.Config, r: Word)
    requires Compiled(ctx, l, code) && k < |code| && code[k].GotoUnless? && Sim(ctx, code, k, s, c)
    ensures StateAt(ctx.env, code, k).Some? && StateAt(ctx.env, code, k + 1).Some?
    ensures StateOk(ctx, s) && s.stack != [] && SpaceOk(ctx.space) && CellOk(ctx, Top(s)) && B.ConfigOk(ctx.space, c1)
    ensures IsLine(ctx, load) && B.ConfigOk(ctx.space, c) && Exec(ctx, load, c) == Next(c1)
    ensures StateAt(ctx.env, code, k + 1).value.code
         == StateAt(ctx.env, code, k).value.code + (load + [Cmd(JMPCNV, Number(code[k].id), Reg(r), NoArg())])
    ensures r < |c1.regs| && c1.regs[r] == Fetch(ctx, s.mem, Top(s)) && StateAt(ctx.env, code, k + 1).value.stack == []
    ensures Agrees(ctx.env, StateAt(ctx.env, code, k + 1).value)
    ensures Refines(ctx, StateAt(ctx.env, code, k + 1).value, Drop(s, 1), c1)
  {
    hide StateAt, LinkOk, Unique, Closed, Refines, StateOk, ContextOk, Exec, IsLine, LoadOperand, Fetch, CellOk, Agrees, Holds;
    var g := StateAt(ctx.env, code, k).value;
    Unfold(ctx, g, s, c);
    StateHere(ctx, l, code, k);
    StateHere(ctx, l, code, k + 1);
    StateStep(ctx.env, code, k);
    assert code[k..][0] == code[k];
    load, c1 := LoadRefines(ctx, g, s, c);
    var x := LoadOperand(ctx.env, g).value;
    r := x.frame.data;
    Unfold(ctx, x.rest, Drop(s, 1), c1);
    var cmd := Cmd(JMPCNV, Number(code[k].id), Reg(r), NoArg());
    assert g.code + load + [cmd] == g.code + (load + [cmd]);
    assert StateAt(ctx.env, code, k + 1).value == Put(x.rest, [cmd]);
    CellsInState(ctx, s);
    PutRefines(ctx, x.rest, Drop(s, 1), c1, [cmd]);
  }

  lemma PutRefines(ctx: Context, g: GState, s: EState, c: B.Config, cmds: seq<Command>)
    requires Refines(ctx, g, s, c)
    ensures Refines(ctx, Put(g, cmds), s, c)
  {
  }

  lemma ConditionRuns(ctx: Context, l: Link, code: seq<POp>, k: nat, s: EState, c: B.Config, load: seq<Command>, c1: B.Config, cmd: Command)
    requires Compiled(ctx, l, code) && k < |code| && Sim(ctx, code, k, s, c) && StateAt(ctx.env, code, k + 1).Some?
    requires StateAt(ctx.env, code, k + 1).value.code == StateAt(ctx.env, code, k).value.code + (load + [cmd])
    requires B.ConfigOk(ctx.space, c) && B.ConfigOk(ctx.space, c1) && IsLine(ctx, load) && Exec(ctx, load, c) == Next(c1)
    ensures c.pc < |l.program| && c1.pc < |l.program| && l.program[c1.pc] == B.Item(ctx.m, cmd) && c1.pc == c.pc + |load|
    ensures B.Supported(l.layout, l.program, ctx.m, B.Decode(cmd))
    ensures ByteRun(l, c, |load| + 1) == B.StepInstr(l.layout, l.space, l.program, ctx.m, B.Decode(cmd), c1)
  {
    hide StateAt, LinkOk, Unique, Closed, Refines, B.Run, ContextOk, Exec, IsLine, B.Decode, B.StepInstr, B.Supported, Holds, Level;
    CommandsHere(ctx, l, code, k, load + [cmd]);
    HoldsSplit(ctx, l.program, c.pc, load, cmd);
    LinkShape(l);
    CodeRuns(ctx, l.program, load, c);
    ExecMoves(ctx, load, c);
    CommandRuns(l, c1, l.program[c1.pc]);
    ByteRunSplit(l, c, |load|, 1);
  }

  lemma LeaveMeaning(ctx: Context, code: seq<POp>, k: nat, s: EState)
    requires k < |code| && code[k].GotoUnless? && StateOk(ctx, s) && s.stack != []
    ensures SpaceOk(ctx.space) && CellOk(ctx, Top(s))
    ensures StructuredMeaning.Step(MeaningOf(ctx), code, Conf(k, Done(s)))
         == Conf(if Fetch(ctx, s.mem, Top(s)) != 0 then k + 1 else Find(code, code[k].id), Done(Drop(s, 1)))
  {
    hide Fetch, CellOk, ContextOk;
    CellsInState(ctx, s);
  }

  /** A condition is loaded, then the jump leaves when it is zero. */
  lemma GotoUnlessStep(ctx: Context, l: Link, code: seq<POp>, k: nat, s: EState, c: B.Config) returns (b: nat)
    requires Compiled(ctx, l, code) && k < |code| && code[k].GotoUnless? && Sim(ctx, code, k, s, c)
    ensures B.ConfigOk(l.space, c) && StateOk(ctx, s) && b > 0 && c.pc < |l.program|
    ensures Stepped(ctx, l, code, StructuredMeaning.Step(MeaningOf(ctx), code, Conf(k, Done(s))), c, b)
  {
    hide StateAt, LinkOk, Unique, Closed, Refines, B.Run, StateOk, ContextOk, Exec, IsLine, LoadOperand, Fetch, Level, Holds, Agrees, CellOk,
         B.Decode, B.StepInstr, B.Supported, StructuredMeaning.Step, Drop, SmallIds;
    var id := code[k].id;
    var load, c1, r := ConditionCommands(ctx, l, code, k, s, c);
    var cmd := Cmd(JMPCNV, Number(id), Reg(r), NoArg());
    ConditionRuns(ctx, l, code, k, s, c, load, c1, cmd);
    LeaveEffect(l, ctx.m, c1, id, r);
    LeaveMeaning(ctx, code, k, s);
    b := |load| + 1;
    JumpArrives(ctx, l, code, id);
    var taken, g' := c1.regs[r] == 0, StateAt(ctx.env, code, k + 1).value;
    EmptyRefines(ctx, g', if taken then StateAt(ctx.env, code, Find(code, id)).value else g', Drop(s, 1), c1,
                 if taken then B.FindLabel(l.program, id) else c1.pc + 1);
  }

  lemma HoldsSplit(ctx: Context, program: seq<B.Item>, p: nat, load: seq<Command>, cmd: Command)
    requires Holds(ctx, program, p, load + [cmd])
    ensures Holds(ctx, program, p, load) && p + |load| < |program| && program[p + |load|] == B.Item(ctx.m, cmd)
  {
    forall k | p <= k < p + |load|
      ensures program[k] == B.Item(ctx.m, load[k - p])
    {
      assert (load + [cmd])[k - p] == load[k - p];
    }
    assert (load + [cmd])[p + |load| - p] == cmd;
  }

  /** Every flat step is matched; a step that takes no byte step, or starts at the end, goes on to the next operation. */
  lemma FlatStep(ctx: Context, l: Link, code: seq<POp>, k: nat, s: EState, c: B.Config) returns (b: nat)
    requires Compiled(ctx, l, code) && k < |code| && Sim(ctx, code, k, s, c)
    ensures B.ConfigOk(l.space, c) && StateOk(ctx, s)
    ensures var next := StructuredMeaning.Step(MeaningOf(ctx), code, Conf(k, Done(s)));
            && Stepped(ctx, l, code, next, c, b)
            && (next.pc == k + 1 || (b > 0 && c.pc < |l.program|))
  {
    hide StateAt, LinkOk, Unique, Level, Refines, B.Run, StateOk, ContextOk, Stepped, StructuredMeaning.Step, Sim;
    if code[k].Plain? {
      b := PlainStep(ctx, l, code, k, s, c);
    } else if code[k].Mark? {
      MarkStep(ctx, l, code, k, s, c);
      b := 1;
    } else if code[k].Goto? {
      GotoStep(ctx, l, code, k, s, c);
      b := 1;
    } else {
      assert code[k].GotoUnless?;
      b := GotoUnlessStep(ctx, l, code, k, s, c);
    }
  }

  // ----- whole runs -----

  /** Where n flat steps lead, some number b of byte steps leads, and b grows with n unless the code is simply gone through. */
  ghost predicate Ran(ctx: Context, l: Link, code: seq<POp>, k: nat, last: Conf<Result>, c: B.Config, b: nat, n: nat)
    requires LinkOk(l) && B.ConfigOk(l.space, c)
  {
    && Stepped(ctx, l, code, last, c, b)
    && (last.s.Done? && last.pc < |code| ==> b * (|code| + 1) + last.pc >= n + k)
  }

  lemma {:induction false} FlatRuns(ctx: Context, l: Link, code: seq<POp>, k: nat, s: EState, c: B.Config, n: nat) returns (b: nat)
    requires Compiled(ctx, l, code) && Sim(ctx, code, k, s, c)
    ensures B.ConfigOk(l.space, c)
    ensures Ran(ctx, l, code, k, StructuredMeaning.Run(MeaningOf(ctx), code, Conf(k, Done(s)), n), c, b, n)
    decreases n
  {
    hide Compiled, Sim, StructuredMeaning.Step, B.Run, LinkOk, MeaningOf;
    CompiledLinks(ctx, l, code);
    SimOk(ctx, code, k, s, c);
    if n == 0 || k >= |code| {
      b := 0;
      ByteNothing(l, c);
    } else {
      var b1 := FlatStep(ctx, l, code, k, s, c);
      var next := StructuredMeaning.Step(MeaningOf(ctx), code, Conf(k, Done(s)));
      if next.s.Done? {
        var c1 := ByteRun(l, c, b1).state;
        SimOk(ctx, code, next.pc, next.s.state, c1);
        var b2 := FlatRuns(ctx, l, code, next.pc, next.s.state, c1, n - 1);
        ByteRunSplit(l, c, b1, b2);
        b := b1 + b2;
        Progress(b1, b2, |code|, k, next.pc, StructuredMeaning.Run(MeaningOf(ctx), code, next, n - 1).pc, n);
      } else {
        b := b1;
        FaultedRun(ctx, code, next, n - 1);
      }
    }
  }

  lemma CompiledLinks(ctx: Context, l: Link, code: seq<POp>)
    requires Compiled(ctx, l, code)
    ensures LinkOk(l) && l.space == ctx.space && l.layout == ctx.layout
  {
    hide LinkOk;
  }

  lemma SimOk(ctx: Context, code: seq<POp>, k: nat, s: EState, c: B.Config)
    requires Sim(ctx, code, k, s, c)
    ensures k <= |code| && B.ConfigOk(ctx.space, c) && StateOk(ctx, s) && c.mem == s.mem
  {
    Unfold(ctx, StateAt(ctx.env, code, k).value, s, c);
  }

  lemma ByteNothing(l: Link, c: B.Config)
    requires LinkOk(l) && B.ConfigOk(l.space, c)
    ensures ByteRun(l, c, 0) == Next(c)
  {
    hide LinkOk;
    LinkShape(l);
  }

  lemma Progress(b1: nat, b2: nat, size: nat, k: nat, pc: nat, last: nat, n: nat)
    requires n > 0 && k < size && (pc == k + 1 || b1 > 0)
    ensures b2 * (size + 1) + last >= n - 1 + pc ==> (b1 + b2) * (size + 1) + last >= n + k
  {
    assert (b1 + b2) * (size + 1) == b1 * (size + 1) + b2 * (size + 1);
    if b1 > 0 {
      ProductMonotone(1, b1, size + 1);
    } else {
      assert b1 * (size + 1) == 0;
    }
  }

  lemma {:induction false} FaultedRun(ctx: Context, code: seq<POp>, c: Conf<Result>, n: nat)
    requires c.s.DivisionByZero?
    ensures StructuredMeaning.Run(MeaningOf(ctx), code, c, n).s == DivisionByZero
    decreases n
  {
    if n > 0 && c.pc < |code| {
      FaultedRun(ctx, code, StructuredMeaning.Step(MeaningOf(ctx), code, c), n - 1);
    }
  }

  /** At the end of the program only operations without commands are left, and the flat run goes through them. */
  lemma {:induction false} Trailing(ctx: Context, l: Link, code: seq<POp>, k: nat, s: EState, c: B.Config) returns (n: nat, s': EState)
    requires Compiled(ctx, l, code) && Sim(ctx, code, k, s, c) && c.pc == |l.program|
    ensures StructuredMeaning.Run(MeaningOf(ctx), code, Conf(k, Done(s)), n) == Conf(|code|, Done(s'))
    decreases |code| - k
  {
    hide Compiled, Sim, StructuredMeaning.Step, B.Run, LinkOk, MeaningOf;
    SimOk(ctx, code, k, s, c);
    if k == |code| {
      n, s' := 0, s;
    } else {
      CompiledLinks(ctx, l, code);
      var b := FlatStep(ctx, l, code, k, s, c);
      ByteHalted(l, c, b);
      var next := StructuredMeaning.Step(MeaningOf(ctx), code, Conf(k, Done(s)));
      n, s' := Trailing(ctx, l, code, next.pc, next.s.state, c);
      n := n + 1;
    }
  }

  lemma ByteHalted(l: Link, c: B.Config, b: nat)
    requires LinkOk(l) && B.ConfigOk(l.space, c) && c.pc >= |l.program|
    ensures ByteRun(l, c, b) == Next(c)
  {
    hide LinkOk;
    LinkShape(l);
  }

  // ----- ends and faults -----

  lemma {:induction false} ByteFaultStays(l: Link, c: B.Config, n: nat, e: Error, m: nat)
    requires LinkOk(l) && B.ConfigOk(l.space, c) && ByteRun(l, c, n) == Fault(e) && m >= n
    ensures ByteRun(l, c, m) == Fault(e)
    decreases n
  {
    hide LinkOk, B.Step;
    LinkShape(l);
    assert n > 0 && c.pc < |l.program|;
    B.StepKeepsOk(l.layout, l.space, l.program, c);
    var r := B.Step(l.layout, l.space, l.program, c);
    if r.Next? {
      ByteFaultStays(l, r.state, n - 1, e, m - 1);
    }
  }

  lemma ByteEndStays(l: Link, c: B.Config, n: nat, last: B.Config, m: nat)
    requires LinkOk(l) && B.ConfigOk(l.space, c) && ByteEnds(l, c, n, last) && m >= n
    ensures ByteRun(l, c, m) == Next(last)
  {
    hide LinkOk, B.Run;
    ByteRunSplit(l, c, n, m - n);
    ByteHalted(l, last, m - n);
  }

  /** The whole flat run and the whole byte run start together. */
  lemma Together(ctx: Context, l: Link, code: seq<POp>, c: B.Config)
    requires Compiled(ctx, l, code) && B.ConfigOk(ctx.space, c) && c.pc == 0
    ensures Sim(ctx, code, 0, EState([], c.mem), c)
  {
    hide LinkOk, Level, Unique, Closed, SmallIds;
    StateHere(ctx, l, code, 0);
    NothingYet(ctx.env, code);
  }

  ghost function FlatRun(ctx: Context, code: seq<POp>, mem: Memory, n: nat): Conf<Result> {
    StructuredMeaning.Run(MeaningOf(ctx), code, Conf(0, Done(EState([], mem))), n)
  }

  lemma HaltGivesEnd(ctx: Context, l: Link, code: seq<POp>, c: B.Config, n: nat, s: EState) returns (b: nat, last: B.Config)
    requires Compiled(ctx, l, code) && B.ConfigOk(ctx.space, c) && c.pc == 0
    requires FlatRun(ctx, code, c.mem, n) == Conf(|code|, Done(s))
    ensures LinkOk(l) && B.ConfigOk(l.space, c)
    ensures ByteEnds(l, c, b, last) && s == EState([], last.mem)
  {
    hide LinkOk, Level, Unique, Closed, SmallIds, B.Run, StructuredMeaning.Run, StateAt;
    Together(ctx, l, code, c);
    b := FlatRuns(ctx, l, code, 0, EState([], c.mem), c, n);
    last := ByteRun(l, c, b).state;
    SimOk(ctx, code, |code|, s, last);
    StateHere(ctx, l, code, |code|);
    EndsEmpty(code, |StateAt(ctx.env, code, |code|).value.stack|);
    Unfold(ctx, StateAt(ctx.env, code, |code|).value, s, last);
  }

  lemma EndsEmpty(code: seq<POp>, h: int)
    requires Level(code[|code|..], h)
    ensures h == 0
  {
  }

  lemma FaultGivesFault(ctx: Context, l: Link, code: seq<POp>, c: B.Config, n: nat) returns (b: nat)
    requires Compiled(ctx, l, code) && B.ConfigOk(ctx.space, c) && c.pc == 0 && FlatRun(ctx, code, c.mem, n).s.DivisionByZero?
    ensures LinkOk(l) && B.ConfigOk(l.space, c) && ByteRun(l, c, b) == Fault(ZeroDivision)
  {
    hide LinkOk, Level, Unique, Closed, SmallIds, B.Run, StructuredMeaning.Run, StateAt;
    Together(ctx, l, code, c);
    b := FlatRuns(ctx, l, code, 0, EState([], c.mem), c, n);
  }

  /** The byte run has stopped within n steps: so has the flat run after enough of its own. */
  lemma Enough(ctx: Context, l: Link, code: seq<POp>, c: B.Config, n: nat) returns (k: nat, b: nat)
    requires Compiled(ctx, l, code) && B.ConfigOk(ctx.space, c) && c.pc == 0
    ensures LinkOk(l) && B.ConfigOk(l.space, c)
    ensures var r := FlatRun(ctx, code, c.mem, k);
            && Stepped(ctx, l, code, r, c, b) && (r.s.Done? && r.pc < |code| ==> b > n)
  {
    hide LinkOk, Compiled, B.Run, StructuredMeaning.Run, StateAt, Sim, Stepped;
    Together(ctx, l, code, c);
    CompiledLinks(ctx, l, code);
    k := (n + 1) * (|code| + 1);
    b := FlatRuns(ctx, l, code, 0, EState([], c.mem), c, k);
    var r := FlatRun(ctx, code, c.mem, k);
    if r.s.Done? && r.pc < |code| {
      BudgetExceeded(b, n, 0, r.pc, |code|);
    }
  }

  lemma EndGivesHalt(ctx: Context, l: Link, code: seq<POp>, c: B.Config, n: nat, last: B.Config) returns (k: nat)
    requires Compiled(ctx, l, code) && B.ConfigOk(ctx.space, c) && c.pc == 0
    requires LinkOk(l) && B.ConfigOk(l.space, c) && ByteEnds(l, c, n, last)
    ensures FlatRun(ctx, code, c.mem, k) == Conf(|code|, Done(EState([], last.mem)))
  {
    hide LinkOk, Compiled, B.Run, StructuredMeaning.Run, StateAt;
    var b;
    k, b := Enough(ctx, l, code, c, n);
    var r := FlatRun(ctx, code, c.mem, k);
    if r.s.DivisionByZero? {
      ByteEndStays(l, c, n, last, n + b);
      ByteFaultStays(l, c, b, ZeroDivision, n + b);
      assert false;
    } else if r.pc < |code| {
      ByteEndStays(l, c, n, last, b);
      var more, s' := Trailing(ctx, l, code, r.pc, r.s.state, last);
      RunAdd(MeaningOf(ctx), code, Conf(0, Done(EState([], c.mem))), k, more);
      k := k + more;
      EndIsSame(ctx, l, code, c, n, last, k, s');
    } else {
      EndIsSame(ctx, l, code, c, n, last, k, r.s.state);
    }
  }

  lemma EndIsSame(ctx: Context, l: Link, code: seq<POp>, c: B.Config, n: nat, last: B.Config, k: nat, s: EState)
    requires Compiled(ctx, l, code) && B.ConfigOk(ctx.space, c) && c.pc == 0
    requires LinkOk(l) && B.ConfigOk(l.space, c) && ByteEnds(l, c, n, last)
    requires FlatRun(ctx, code, c.mem, k) == Conf(|code|, Done(s))
    ensures s == EState([], last.mem)
  {
    hide LinkOk, Compiled, B.Run, StructuredMeaning.Run, StateAt;
    var b, last' := HaltGivesEnd(ctx, l, code, c, k, s);
    ByteEndStays(l, c, n, last, n + b);
    ByteEndStays(l, c, b, last', n + b);
  }

  lemma FaultGivesFlatFault(ctx: Context, l: Link, code: seq<POp>, c: B.Config, n: nat, e: Error) returns (k: nat)
    requires Compiled(ctx, l, code) && B.ConfigOk(ctx.space, c) && c.pc == 0
    requires LinkOk(l) && B.ConfigOk(l.space, c) && ByteRun(l, c, n) == Fault(e)
    ensures e == ZeroDivision && FlatRun(ctx, code, c.mem, k).s.DivisionByZero?
  {
    hide LinkOk, Compiled, B.Run, StructuredMeaning.Run, StateAt;
    var b;
    k, b := Enough(ctx, l, code, c, n);
    var r := FlatRun(ctx, code, c.mem, k);
    ByteFaultStays(l, c, n, e, n + b);
    if r.s.DivisionByZero? {
      ByteFaultStays(l, c, b, ZeroDivision, n + b);
    } else if r.pc < |code| {
      ByteFaultStays(l, c, n, e, b);
      assert false;
    } else {
      var b', last := HaltGivesEnd(ctx, l, code, c, k, r.s.state);
      ByteEndStays(l, c, b', last, n + b + b');
      ByteFaultStays(l, c, n, e, n + b + b');
      assert false;
    }
  }
}
