/** Where the variables of linked modules end up: the addresses that translation hands out, placed by the linker. */
module ModuleVariables {
  import opened Words
  import opened ByteCode
  import opened LinkSpec
  import opened LinkOrder
  import opened LinkedModules
  import F = Frames

  /** The frame steps of a module's translation, from its own frame on, which stays open. */
  predicate ModuleSteps(steps: seq<F.Step>) {
    F.KeepsModule(1, steps)
  }

  function FramesAfter(steps: seq<F.Step>): F.Status {
    F.Run([F.StackFrame(0, 0)], steps)
  }

  /** A declared variable: the step that declares it, among those of its module. */
  predicate DeclaresAt(steps: seq<F.Step>, k: nat) {
    k < |steps| && steps[k].Declare? && FramesAfter(steps[..k]).Done? && FramesAfter(steps[..k]).frames != []
  }

  function OffsetOf(steps: seq<F.Step>, k: nat): nat
    requires DeclaresAt(steps, k)
  {
    F.NextFree(FramesAfter(steps[..k]).frames)
  }

  /** The module itself declares, after the variable, at least as many bytes as the blocks open at the variable then hold. */
  predicate CoveredLater(steps: seq<F.Step>, k: nat)
    requires DeclaresAt(steps, k)
  {
    var next := F.After(FramesAfter(steps[..k]).frames, steps[k]).frames;
    F.NextFree(next) - next[0].size <= F.ModuleBytes(|next|, steps[k + 1..])
  }

  // ----- the frames of a module -----

  lemma {:induction false} RunAppend(frames: seq<F.StackFrame>, a: seq<F.Step>, b: seq<F.Step>)
    requires F.Run(frames, a).Done?
    ensures F.Run(frames, a + b) == F.Run(F.Run(frames, a).frames, b)
    decreases |a|
  {
    if a == [] {
      assert a + b == b;
    } else {
      assert (a + b)[1..] == a[1..] + b;
      RunAppend(F.After(frames, a[0]).frames, a[1..], b);
    }
  }

  /** The module's frame is never closed and keeps its start at 0. */
  lemma {:induction false} ModuleStays(frames: seq<F.StackFrame>, steps: seq<F.Step>, k: nat)
    requires F.KeepsModule(|frames|, steps) && k <= |steps|
    ensures F.Run(frames, steps[..k]).Done? && F.Run(frames, steps[..k]).frames != []
    ensures F.Run(frames, steps[..k]).frames[0].start == frames[0].start
    ensures F.KeepsModule(|F.Run(frames, steps[..k]).frames|, steps[k..])
    decreases k
  {
    if k > 0 {
      assert steps[..k][1..] == steps[1..][..k - 1] && steps[1..][k - 1..] == steps[k..];
      ModuleStays(F.After(frames, steps[0]).frames, steps[1..], k - 1);
    } else {
      assert steps[k..] == steps;
    }
  }

  function StackSize(steps: seq<F.Step>): nat
    requires FramesAfter(steps).Done? && FramesAfter(steps).frames != []
  {
    FramesAfter(steps).frames[0].size
  }

  /** A variable's bytes are within the module's stack size exactly when it is covered later. */
  lemma WithinStack(steps: seq<F.Step>, k: nat)
    requires ModuleSteps(steps) && k < |steps| && steps[k].Declare?
    ensures DeclaresAt(steps, k) && FramesAfter(steps).Done? && FramesAfter(steps).frames != []
    ensures OffsetOf(steps, k) + steps[k].size <= StackSize(steps) <==> CoveredLater(steps, k)
  {
    hide F.ModuleBytes, F.KeepsModule, F.NextFree, F.Run;
    var first := [F.StackFrame(0, 0)];
    ModuleStays(first, steps, k);
    ModuleStays(first, steps, |steps|);
    assert steps[..|steps|] == steps && steps[k..] == [F.Declare(steps[k].size)] + steps[k + 1..];
    var frames := FramesAfter(steps[..k]).frames;
    F.InsideModule(frames, steps[k].size, steps[k + 1..]);
    assert steps == steps[..k] + steps[k..];
    RunAppend(first, steps[..k], steps[k..]);
    RunCons(frames, steps[k], steps[k + 1..]);
  }

  lemma RunCons(frames: seq<F.StackFrame>, step: F.Step, rest: seq<F.Step>)
    requires F.After(frames, step).Done?
    ensures F.Run(frames, [step] + rest) == F.Run(F.After(frames, step).frames, rest)
  {
    assert ([step] + rest)[1..] == rest;
  }

  // ----- placed by the linker -----

  /** A file states the stack size of its module's frame steps. */
  predicate FileOf(file: ModuleFile, steps: seq<F.Step>) {
    && ModuleSteps(steps) && FramesAfter(steps).Done? && FramesAfter(steps).frames != []
    && file.stackSize == StackSize(steps)
  }

  /** A symbol names the variable that a step of its module declares. */
  predicate Names(layout: Layout, a: Arg, m: ModuleId, steps: seq<F.Step>, k: nat) {
    && a.source == Symbol && a.data < |layout.symbols| && DeclaresAt(steps, k)
    && layout.symbols[a.data].kind == VariableSymbol && layout.symbols[a.data].moduleId == m
    && layout.symbols[a.data].offset == OffsetOf(steps, k)
  }

  predicate Within(address: nat, size: nat, low: nat, high: nat) {
    low <= address && address + size <= high
  }

  /**
   * A variable of module o, used by a module linked no earlier, is resolved to an address from which all its bytes lie
   * in module o's range exactly when it is covered later in its module.
   */
  lemma ResolvedInRange(layout: Layout, start: Word, order: seq<ModuleId>, files: map<ModuleId, ModuleFile>, o: nat, user: nat,
                        a: Arg, steps: seq<F.Step>, k: nat)
    returns (address: Word)
    requires Distinct(order) && AllPresent(order, files) && o <= user < |order|
    requires start + StackTotal(order, files) < TWO64
    requires FileOf(files[order[o]], steps) && Names(layout, a, order[o], steps, k)
    ensures Relocate(layout.(bases := Place(start, order[..user + 1], files).bases), order[user], a)
            == Some(Arg(address, MemoryAddress))
    ensures var low := start + StackTotal(order[..o], files);
            && low + files[order[o]].stackSize <= start + StackTotal(order, files)
            && (Within(address, steps[k].size, low, low + files[order[o]].stackSize) <==> CoveredLater(steps, k))
  {
    hide F.Run, F.ModuleBytes, F.NextFree, F.KeepsModule, CoveredLater, StackTotal, Place;
    WithinStack(steps, k);
    ModuleBase(start, order, files, o);
    StackTotalPrefix(order, files, o, |order|);
    assert order[..|order|] == order;
    assert order[..user + 1][o] == order[o];
    BasesStay(start, order, files, user + 1, order[o]);
    address := Wrap(start + StackTotal(order[..o], files) + OffsetOf(steps, k));
  }

  /** Variables of two modules never overlap when both are covered later in their modules. */
  lemma VariablesApart(layout: Layout, start: Word, order: seq<ModuleId>, files: map<ModuleId, ModuleFile>, user: nat,
                       o: nat, a: Arg, steps: seq<F.Step>, k: nat, o': nat, a': Arg, steps': seq<F.Step>, k': nat)
    returns (address: Word, address': Word)
    requires Distinct(order) && AllPresent(order, files) && o < o' <= user < |order|
    requires start + StackTotal(order, files) < TWO64
    requires FileOf(files[order[o]], steps) && Names(layout, a, order[o], steps, k) && CoveredLater(steps, k)
    requires FileOf(files[order[o']], steps') && Names(layout, a', order[o'], steps', k') && CoveredLater(steps', k')
    ensures var now := layout.(bases := Place(start, order[..user + 1], files).bases);
            && Relocate(now, order[user], a) == Some(Arg(address, MemoryAddress))
            && Relocate(now, order[user], a') == Some(Arg(address', MemoryAddress))
            && start <= address && address + steps[k].size <= address'
  {
    hide F.Run, F.ModuleBytes, F.NextFree, F.KeepsModule, CoveredLater, StackTotal, Place, Relocate, FileOf, Names;
    address := ResolvedInRange(layout, start, order, files, o, user, a, steps, k);
    address' := ResolvedInRange(layout, start, order, files, o', user, a', steps', k');
    StackTotalPrefix(order, files, o, o');
  }

  /**
   * Without it they do overlap: a module whose only variable is in a block states no stack at all, so the variable has
   * the address of the next module's.
   */
  lemma BlockVariableOverlaps(layout: Layout, start: Word, order: seq<ModuleId>, files: map<ModuleId, ModuleFile>, size: nat, a: Arg)
    requires |order| == 2 && order[0] != order[1] && AllPresent(order, files) && size > 0
    requires start + StackTotal(order, files) < TWO64
    requires var steps := [F.PushFrame, F.Declare(size), F.PopFrame];
             FileOf(files[order[0]], steps) && DeclaresAt(steps, 1) && Names(layout, a, order[0], steps, 1)
    ensures var bases := Place(start, order, files).bases;
            && order[1] in bases
            && Relocate(layout.(bases := bases), order[1], a) == Some(Arg(bases[order[1]], MemoryAddress))
  {
    var steps := [F.PushFrame, F.Declare(size), F.PopFrame];
    ModuleBase(start, order, files, 0);
    ModuleBase(start, order, files, 1);
    assert order[..1] == [order[0]] && order[..0] == [];
    assert [order[0]][..0] == [];
    var open := [F.StackFrame(0, 0), F.StackFrame(0, 0)];
    assert steps[..1] == [F.PushFrame] && [F.PushFrame][1..] == [];
    assert steps[1..] == [F.Declare(size), F.PopFrame] && steps[1..][1..] == [F.PopFrame] && [F.PopFrame][1..] == [];
    assert F.After([F.StackFrame(0, 0)], F.PushFrame) == F.Done(open);
    assert FramesAfter(steps[..1]) == F.Done(open);
    var inner := F.After(open, F.Declare(size)).frames;
    assert inner == [F.StackFrame(0, 0), F.StackFrame(0, size)];
    assert F.After(inner, F.PopFrame) == F.Done([F.StackFrame(0, 0)]);
    assert F.Run(open, steps[1..]) == F.Done([F.StackFrame(0, 0)]);
  }
}
