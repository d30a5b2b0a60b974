/** A linked program, loaded into memory and started. */
module Startup {
  import opened Words
  import opened ByteCode
  import opened Machine
  import opened ReadOnlyData
  import opened LinkOrder
  import opened LinkedModules
  import opened Simulation
  import opened LinkedRun
  import H = HeapRuns
  import I = Intervals
  import F = FreeLists
  import LS = LinkSpec
  import B = ByteMachine
  import V = VM

  const MIN_STACK_SIZE := 32767
  const MIN_HEAP_SIZE := 32767

  /** Read-only data, rounded up, then stack and heap. */
  function LoadedSpace(rodSize: nat): Space {
    var stack := AlignUp(rodSize);
    Space(stack, stack + MIN_STACK_SIZE, stack + MIN_STACK_SIZE + MIN_HEAP_SIZE)
  }

  /** Memory after loading: the read-only data at its start; stack and heap hold anything. */
  ghost predicate Loaded(constants: seq<ConstantData>, mem: Memory)
    requires SizesOk(constants)
  {
    |mem| == LoadedSpace(TotalSize(constants)).end && TotalSize(constants) <= |mem| && mem[..TotalSize(constants)] == Image(constants)
  }

  /** The table the linker lays out, with the addresses it records. */
  ghost predicate LaidOut(constants: seq<ConstantData>, layout: Layout) {
    && |layout.constants| == |layout.constantAddresses| == |constants|
    && forall k :: 0 <= k < |constants| ==>
         layout.constants[k] == constants[k].data && layout.constantAddresses[k] == AddressOf(constants, k)
  }

  lemma ConstantsAreLoaded(constants: seq<ConstantData>, layout: Layout, mem: Memory)
    requires SizesOk(constants) && LaidOut(constants, layout) && Loaded(constants, mem)
    ensures ConstantsLoaded(layout, LoadedSpace(TotalSize(constants)), mem)
  {
    hide Image, AddressOf;
    var space := LoadedSpace(TotalSize(constants));
    AlignUpMultiple(TotalSize(constants));
    forall k | 0 <= k < |layout.constants|
      ensures var a, n := layout.constantAddresses[k], |layout.constants[k]|;
              a + n <= space.stackStart && mem[a..a + n] == layout.constants[k]
    {
      ConstantAtAddress(constants, k);
      var a, n := layout.constantAddresses[k], |layout.constants[k]|;
      assert mem[..TotalSize(constants)][a..a + n] == mem[a..a + n];
    }
  }

  /** All registers are zero but the stack pointer, which is at the stack's start. */
  function MachineStart(space: Space, mem: Memory): V.VMState
    requires space.stackStart < TWO64
  {
    V.VMState(0, seq(V.TOTAL_REGISTERS, i => if i == V.SP then space.stackStart else 0), V.Flags(false, false, false, false), mem, [])
  }

  function ByteStart(space: Space, mem: Memory): B.Config
    requires space.stackStart < TWO64
  {
    B.Config(0, seq(B.GENERAL_REGISTERS, i => 0), space.stackStart, mem, [])
  }

  lemma StartRelated(l: Link, constants: seq<ConstantData>, mem: Memory)
    requires |l.cs| == |l.program| && SizesOk(constants) && LaidOut(constants, l.layout) && Loaded(constants, mem)
    requires l.space == LoadedSpace(TotalSize(constants)) && SpaceOk(l.space)
    ensures Related(l, ByteStart(l.space, mem), MachineStart(l.space, mem))
  {
    ConstantsAreLoaded(constants, l.layout, mem);
    assert l.cs[..0] == [];
  }

  /**
   * A program of modules in dependency order that the byte machine runs: it links, and the linked code, loaded and started, halts, faults and
   * changes memory exactly as the byte program does from its own start.
   */
  lemma ProgramRuns(layout: Layout, constants: seq<ConstantData>, start: Word, order: seq<ModuleId>, files: map<ModuleId, ModuleFile>,
                    mem: Memory)
    returns (l: Link)
    requires SizesOk(constants) && LaidOut(constants, layout) && Loaded(constants, mem) && SpaceOk(LoadedSpace(TotalSize(constants)))
    requires Distinct(order) && AllPresent(order, files) && DependencyOrder(layout, order, files)
    requires var final := layout.(bases := Place(start, order, files).bases);
             B.SupportedProgram(final, Items(order, files)) && B.UniqueLabels(Items(order, files))
    requires LinkedCommands(layout, start, order, files).Some? ==> |LS.Emit(LinkedCommands(layout, start, order, files).value)| < TWO64
    ensures LinkedCommands(layout, start, order, files) == Some(l.cs) && l.program == Items(order, files) && LinkOk(l)
    ensures l.space == LoadedSpace(TotalSize(constants))
    ensures var b, v := ByteStart(l.space, mem), MachineStart(l.space, mem);
            && B.ConfigOk(l.space, b) && V.StateOk(l.space, v)
            && ((exists n: nat, last :: ByteEnds(l, b, n, last)) <==> (exists m: nat, last :: CodeEnds(l, v, m, last)))
            && (forall n: nat, m: nat, last, last' ::
                  ByteEnds(l, b, n, last) && CodeEnds(l, v, m, last') ==> last'.mem == last.mem && last'.output == last.output)
            && (forall e :: (exists n: nat :: ByteRun(l, b, n) == Fault(e)) <==> (exists m: nat :: CodeRun(l, v, m) == Fault(e)))
  {
    hide B.SupportedProgram, B.UniqueLabels, DependencyOrder, LinkedCommands, LinkOk, Related, ByteEnds, CodeEnds, B.Run, V.Run, LaidOut, Loaded;
    LaidOutLengths(constants, layout);
    var space := LoadedSpace(TotalSize(constants));
    l := ProgramLinks(layout, space, start, order, files);
    var b, v := ByteStart(space, mem), MachineStart(space, mem);
    LinkShape(l);
    LaidOutStays(constants, layout, l.layout);
    StartRelated(l, constants, mem);
    LinkedCodeIsEquivalent(l, b, v);
    forall n: nat, m: nat, last, last' | ByteEnds(l, b, n, last) && CodeEnds(l, v, m, last')
      ensures last'.mem == last.mem && last'.output == last.output
    {
      Agree(l, last, last');
    }
  }

  function LoopMark(): Command {
    Command(JMP_LABEL, Arg(7, Immediate), NoArg(), NoArg(), 0, 1)
  }

  function LoopJump(): Command {
    Command(JMP, Arg(7, Immediate), NoArg(), NoArg(), 0, 1)
  }

  lemma MarkDecoded()
    ensures B.Decode(LoopMark()) == B.Skip
  {
  }

  lemma JumpDecoded()
    ensures B.Decode(LoopJump()) == B.Jump(B.Always, 7, 0)
  {
  }

  lemma LoopSupported(layout: Layout)
    ensures var items := [B.Item(1, LoopMark()), B.Item(1, LoopJump())];
            B.SupportedProgram(layout, items) && B.UniqueLabels(items)
  {
    hide B.Decode;
    var items := [B.Item(1, LoopMark()), B.Item(1, LoopJump())];
    MarkDecoded();
    JumpDecoded();
    assert B.IsLabel(items[0].cmd, 7);
    assert B.FindLabel(items, 7) == 0;
  }

  lemma LoopItems(files: map<ModuleId, ModuleFile>)
    requires 1 in files && files[1].commands == [LoopMark(), LoopJump()]
    ensures AllPresent([1], files) && Items([1], files) == [B.Item(1, LoopMark()), B.Item(1, LoopJump())]
    ensures DependencyOrder(Layout(map[], [], [], []), [1], files)
  {
    assert [1][..0] == [] && Items([], files) == [];
  }

  /** The smallest loop is such a program: a label and a jump back to it, in one module without constants. */
  lemma LoopIsProgram(start: Word, stackSize: Word)
    ensures var layout := Layout(map[], [], [], []);
            var files := map[1 := ModuleFile([LoopMark(), LoopJump()], stackSize)];
            && AllPresent([1], files) && Distinct([1]) && DependencyOrder(layout, [1], files)
            && B.SupportedProgram(layout.(bases := Place(start, [1], files).bases), Items([1], files)) && B.UniqueLabels(Items([1], files))
  {
    hide B.SupportedProgram, B.UniqueLabels, Items, DependencyOrder, Place, LoopMark, LoopJump;
    var files := map[1 := ModuleFile([LoopMark(), LoopJump()], stackSize)];
    LoopItems(files);
    LoopSupported(Layout(map[], [], [], []).(bases := Place(start, [1], files).bases));
  }

  lemma LaidOutLengths(constants: seq<ConstantData>, layout: Layout)
    requires LaidOut(constants, layout)
    ensures |layout.constants| == |layout.constantAddresses|
  {
  }

  lemma LaidOutStays(constants: seq<ConstantData>, layout: Layout, final: Layout)
    requires LaidOut(constants, layout) && final == layout.(bases := final.bases)
    ensures LaidOut(constants, final)
  {
  }

  // ----- the heap of a started machine -----

  /**
   * The heap's end is the address behind the last one, but blocks include their end: of the addresses free at the start, exactly the last
   * one cannot be written.
   */
  lemma HeapOffersItsEnd(space: Space, mem: Memory, a: nat, value: Word)
    requires SpaceOk(space) && |mem| == space.end
    requires F.Free?(H.Start(space.heapStart, space.end).lists, a)
    ensures F.Free?(H.Start(space.heapStart, space.end).lists, space.end)
    ensures Store(space, mem, a, value, 1).Next? <==> a != space.end
  {
    H.StartShared(space.heapStart, space.end);
    var h := H.Start(space.heapStart, space.end);
    assert H.Holders(h.live, a) == 0 && H.Holders(h.live, space.end) == 0;
    assert forall x :: F.Free?(h.lists, x) <==> space.heapStart <= x <= space.end;
  }
}
