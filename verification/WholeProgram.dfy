/** From structured programs of trees to the running machine, and one such program. */
module WholeProgram {
  import opened Words
  import opened ByteCode
  import opened Machine
  import opened LoweringSpec
  import opened LoweringCorrect
  import opened BreakScoping
  import opened FlatCodegen
  import opened ProgramToMachine
  import opened ProgramStart
  import opened SourceProgram
  import opened SourceTrees
  import opened TreePrograms
  import opened ProgramPressure
  import opened ProgramTable
  import CompiledProgram
  import FirstBranch
  import LC = LevelCode
  import L = Literals
  import LO = LinkOrder
  import LS = LinkSpec
  import O = ObjectFormat
  import OR = ObjectRoundTrip
  import ROD = ReadOnlyData
  import RP = RegisterPressure
  import SE = StackEvaluator
  import SM = StructuredMeaning
  import Sim = Simulation
  import U = Startup
  import V = VM

  /** The program's constants are those it interns, its breaks are inside cycles, and there are registers for all of it. */
  ghost predicate Accepted(w: World, p: seq<Statement>) {
    && SE.ContextOk(w.ctx) && RP.IntegerEnv(w.ctx.env)
    && AllShapeOk(w, p) && w.table == AllInterned(w.names, p, []) && AllInside(p)
    && AllOk(w, p) && AllRegisters(w, p, 0).Some?
  }

  /**
   * Started, the linked program halts with a memory exactly when the program, run tree by tree, ends with it, and faults exactly when the
   * program divides by zero.
   */
  ghost predicate RunsAs(l: Sim.Link, w: World, p: seq<Statement>, mem: Memory) {
    && WorldOk(w) && AllOk(w, p) && |mem| == w.ctx.space.end
    && SpaceOk(l.space) && V.StateOk(l.space, U.MachineStart(l.space, mem))
    && (forall mem' :: MachineEnds(l, U.MachineStart(l.space, mem), mem') <==> EndsIn(w, p, mem, Mem(mem')))
    && (forall e :: MachineFaults(l, U.MachineStart(l.space, mem), e) <==> e == ZeroDivision && EndsIn(w, p, mem, Divided))
  }

  lemma ResIs(s: State)
    ensures (forall mem :: Res(s) == InMemory(mem) <==> s == Mem(mem)) && (Res(s) == SE.DivisionByZero <==> s == Divided)
  {
  }

  /** The execution of the written program and the run of its trees end alike. */
  lemma EndsAlike(w: World, p: seq<Statement>, mem: Memory, s: State)
    requires WorldOk(w) && AllOk(w, p) && |mem| == w.ctx.space.end && !s.Untyped?
    ensures Finishes(CompiledProgramMeaning(w), Code(w), PrintAll(p), InMemory(mem), Res(s)) <==> EndsIn(w, p, mem, s)
  {
    hide SourceCode, WorldOk, AllOk, SM.ExecAll, RunAll, PrintAll;
    forall fuel: nat
      ensures SM.ExecAll(CompiledProgramMeaning(w), Code(w), PrintAll(p), InMemory(mem), fuel) == Lift(RunAll(w, p, Mem(mem), fuel))
    {
      AllRun(w, p, Mem(mem), fuel);
    }
    forall fuel: nat
      ensures Lift(RunAll(w, p, Mem(mem), fuel)) == SM.Normal(Res(s)) <==> RunAll(w, p, Mem(mem), fuel) == SM.Normal(s)
    {
      var o := RunAll(w, p, Mem(mem), fuel);
      if o.Normal? {
        ResIs(o.s);
      }
    }
  }

  ghost function CompiledProgramMeaning(w: World): SM.Meaning<SE.Result> {
    CompiledProgram.MeaningOf(w.ctx)
  }

  /**
   * A structured program of assignments, ifs, cycles, breaks and continues over expression trees is written down in tokens, its literals
   * are interned as they are met, it is lowered, translated, linked, loaded and started. The machine halts with a memory exactly when the
   * program, run tree by tree, ends with it; it faults exactly when the program divides by zero; and else both run for ever.
   */
  lemma WholeProgramRuns(w: World, p: seq<Statement>, file: O.MoState, aligned: bool, layout: Layout, start: Word,
                         files: map<ModuleId, LO.ModuleFile>, next: nat, mem: Memory)
    returns (l: Sim.Link)
    requires Accepted(w, p) && Installed(w.table, w.decode, w.ctx, file, aligned, layout, start, files, mem)
    requires ModuleOf(w.ctx, Code(w), PrintAll(p), next, files)
    ensures LO.LinkedCommands(layout, start, [w.ctx.m], files) == Some(l.cs) && l.space == w.ctx.space && RunsAs(l, w, p, mem)
  {
    hide SourceCode, AllOk, AllShapeOk, AllInterned, AllRegisters, LowerAll, PrintAll, StateAt, LO.LinkedCommands, Finishes, LS.Emit,
         SE.ContextOk, U.Loaded, LO.Place, OR.MoOk, O.ReadMo, O.MoBytes, L.Carries, L.Described, MachineEnds, MachineFaults, AllHaveBlocks,
         AllScoped, LC.AllTidy, EndsIn, RP.IntegerEnv, U.LaidOut, FirstBranch.AllSettled;
    var nodes := PrintAll(p);
    Carried(w, file, aligned, layout, start, files, mem);
    AllWritten(w, p);
    ProgramTranslates(w, p, next);
    l := SourceProgramRuns(w.names, w.table, w.decode, file, aligned, w.ctx, layout, start, files, nodes, next, mem);
    forall mem'
      ensures MachineEnds(l, U.MachineStart(l.space, mem), mem') <==> EndsIn(w, p, mem, Mem(mem'))
    {
      EndsAlike(w, p, mem, Mem(mem'));
    }
    EndsAlike(w, p, mem, Divided);
  }

  /** What is installed is what the program's world says. */
  lemma Carried(w: World, file: O.MoState, aligned: bool, layout: Layout, start: Word, files: map<ModuleId, LO.ModuleFile>, mem: Memory)
    requires SE.ContextOk(w.ctx) && Installed(w.table, w.decode, w.ctx, file, aligned, layout, start, files, mem)
    ensures WorldOk(w) && |mem| == w.ctx.space.end
  {
    hide SE.ContextOk, LO.Place, OR.MoOk, O.ReadMo, O.MoBytes, L.Carries, L.Described;
    FileReads(file, aligned);
    LaidOutPlaced(O.ReadMo(O.MoBytes(file), aligned).value.constants, layout, w.ctx.layout);
    L.TextsAreLoaded(w.ctx, w.table, w.decode, file, aligned, mem);
  }
}
