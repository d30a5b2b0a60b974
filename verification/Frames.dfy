/** Variable addresses from nested frames, and the stack size that a code file states for its module. */
module Frames {

  datatype StackFrame = StackFrame(start: nat, size: nat)

  datatype Step = PushFrame | PopFrame | Declare(size: nat)

  datatype Status = Done(frames: seq<StackFrame>) | ExtraPop | NoFrame

  function Top(frames: seq<StackFrame>): StackFrame
    requires frames != []
  {
    frames[|frames| - 1]
  }

  function NextFree(frames: seq<StackFrame>): nat {
    if frames == [] then 0 else Top(frames).start + Top(frames).size
  }

  function After(frames: seq<StackFrame>, step: Step): Status {
    match step
    case PushFrame => Done(frames + [StackFrame(NextFree(frames), 0)])
    case PopFrame => if frames == [] then ExtraPop else Done(frames[..|frames| - 1])
    case Declare(size) =>
      if frames == [] then NoFrame
      else Done(frames[..|frames| - 1] + [StackFrame(Top(frames).start, Top(frames).size + size)])
  }

  function Run(frames: seq<StackFrame>, steps: seq<Step>): Status
    decreases |steps|
  {
    if steps == [] then Done(frames)
    else
      match After(frames, steps[0])
      case Done(next) => Run(next, steps[1..])
      case other => other
  }

  datatype Variable = Variable(offset: nat, size: nat)

  /** The variables of each open frame, in order of declaration. */
  function Live(frames: seq<StackFrame>, live: seq<seq<Variable>>, steps: seq<Step>): seq<seq<Variable>>
    requires |live| == |frames| && Run(frames, steps).Done?
    decreases |steps|
  {
    if steps == [] then live
    else Live(After(frames, steps[0]).frames, LiveAfter(frames, live, steps[0]), steps[1..])
  }

  function LiveAfter(frames: seq<StackFrame>, live: seq<seq<Variable>>, step: Step): (r: seq<seq<Variable>>)
    requires |live| == |frames| && After(frames, step).Done?
    ensures |r| == |After(frames, step).frames|
  {
    match step
    case PushFrame => live + [[]]
    case PopFrame => live[..|live| - 1]
    case Declare(size) => live[..|live| - 1] + [live[|live| - 1] + [Variable(NextFree(frames), size)]]
  }

  /** The variables fill the frame without gap or overlap. */
  predicate Filled(start: nat, end: nat, vars: seq<Variable>) {
    if vars == [] then start == end
    else
      var last := vars[|vars| - 1];
      last.offset + last.size == end && Filled(start, last.offset, vars[..|vars| - 1])
  }

  /** Frames follow one another from address 0, each filled by its variables. */
  predicate Tiled(frames: seq<StackFrame>, live: seq<seq<Variable>>)
    requires |live| == |frames|
  {
    frames == [] ||
    var n := |frames| - 1;
    frames[n].start == NextFree(frames[..n]) && Filled(frames[n].start, NextFree(frames), live[n]) && Tiled(frames[..n], live[..n])
  }

  /** Frames stay tiled over every run of steps. */
  lemma {:induction false} RunTiles(frames: seq<StackFrame>, live: seq<seq<Variable>>, steps: seq<Step>)
    requires |live| == |frames| && Tiled(frames, live) && Run(frames, steps).Done?
    ensures |Live(frames, live, steps)| == |Run(frames, steps).frames|
    ensures Tiled(Run(frames, steps).frames, Live(frames, live, steps))
    decreases |steps|
  {
    hide Tiled;
    if steps != [] {
      StepTiles(frames, live, steps[0]);
      RunTiles(After(frames, steps[0]).frames, LiveAfter(frames, live, steps[0]), steps[1..]);
    }
  }

  lemma StepTiles(frames: seq<StackFrame>, live: seq<seq<Variable>>, step: Step)
    requires |live| == |frames| && Tiled(frames, live) && After(frames, step).Done?
    ensures Tiled(After(frames, step).frames, LiveAfter(frames, live, step))
  {
    var next, after := After(frames, step).frames, LiveAfter(frames, live, step);
    match step
    case PushFrame =>
      assert next[..|frames|] == frames && after[..|frames|] == live;
    case PopFrame =>
    case Declare(size) =>
      var n := |frames| - 1;
      assert next[..n] == frames[..n] && after[..n] == live[..n];
      assert after[n][..|live[n]|] == live[n];
  }

  lemma {:induction false} FilledWithin(start: nat, end: nat, vars: seq<Variable>, k: nat)
    requires Filled(start, end, vars) && k < |vars|
    ensures start <= vars[k].offset && vars[k].offset + vars[k].size <= end
  {
    FilledAscends(start, vars[|vars| - 1].offset, vars[..|vars| - 1]);
    if k < |vars| - 1 {
      FilledWithin(start, vars[|vars| - 1].offset, vars[..|vars| - 1], k);
    }
  }

  lemma {:induction false} FilledAscends(start: nat, end: nat, vars: seq<Variable>)
    requires Filled(start, end, vars)
    ensures start <= end
  {
    if vars != [] {
      FilledAscends(start, vars[|vars| - 1].offset, vars[..|vars| - 1]);
    }
  }

  /** Of two variables that are live together, the one declared first lies below the other. */
  lemma {:induction false} LiveApart(frames: seq<StackFrame>, live: seq<seq<Variable>>, i: nat, j: nat, k: nat, l: nat)
    requires |live| == |frames| && Tiled(frames, live) && i < |frames| && j < |live[i]| && k < |frames| && l < |live[k]|
    requires i < k || (i == k && j < l)
    ensures live[i][j].offset + live[i][j].size <= live[k][l].offset
    decreases |frames|
  {
    var n := |frames| - 1;
    if k < n {
      LiveApart(frames[..n], live[..n], i, j, k, l);
    } else if i < n {
      BelowNextFree(frames[..n], live[..n], i, j);
      FilledWithin(frames[n].start, NextFree(frames), live[n], l);
    } else {
      FilledApart(frames[n].start, NextFree(frames), live[n], j, l);
    }
  }

  lemma {:induction false} FilledApart(start: nat, end: nat, vars: seq<Variable>, j: nat, l: nat)
    requires Filled(start, end, vars) && j < l < |vars|
    ensures vars[j].offset + vars[j].size <= vars[l].offset
  {
    var n := |vars| - 1;
    if l < n {
      FilledApart(start, vars[n].offset, vars[..n], j, l);
    } else {
      FilledWithin(start, vars[n].offset, vars[..n], j);
    }
  }

  lemma {:induction false} BelowNextFree(frames: seq<StackFrame>, live: seq<seq<Variable>>, i: nat, j: nat)
    requires |live| == |frames| && Tiled(frames, live) && i < |frames| && j < |live[i]|
    ensures live[i][j].offset + live[i][j].size <= NextFree(frames)
    decreases |frames|
  {
    var n := |frames| - 1;
    FilledAscends(frames[n].start, NextFree(frames), live[n]);
    if i < n {
      BelowNextFree(frames[..n], live[..n], i, j);
    } else {
      FilledWithin(frames[n].start, NextFree(frames), live[n], j);
    }
  }

  // ----- the module's stack size -----

  /** Bytes declared outside every block, from a number of open frames on. */
  function ModuleBytes(depth: nat, steps: seq<Step>): nat
    decreases |steps|
  {
    if steps == [] then 0
    else
      match steps[0]
      case PushFrame => ModuleBytes(depth + 1, steps[1..])
      case PopFrame => ModuleBytes(if depth == 0 then 0 else depth - 1, steps[1..])
      case Declare(size) => (if depth == 1 then size else 0) + ModuleBytes(depth, steps[1..])
  }

  /** The module's frame stays open: no step closes the last frame. */
  predicate KeepsModule(depth: nat, steps: seq<Step>)
    decreases |steps|
  {
    depth > 0 && (steps == [] ||
      match steps[0]
      case PushFrame => KeepsModule(depth + 1, steps[1..])
      case PopFrame => KeepsModule(depth - 1, steps[1..])
      case Declare(_) => KeepsModule(depth, steps[1..]))
  }

  lemma {:induction false} ModuleGrows(frames: seq<StackFrame>, steps: seq<Step>)
    requires KeepsModule(|frames|, steps)
    ensures Run(frames, steps).Done? && Run(frames, steps).frames != []
    ensures Run(frames, steps).frames[0] == StackFrame(frames[0].start, frames[0].size + ModuleBytes(|frames|, steps))
    decreases |steps|
  {
    if steps != [] {
      ModuleGrows(After(frames, steps[0]).frames, steps[1..]);
    }
  }

  /**
   * The stack size in the code file is that of the module's own frame. A variable lies inside it exactly when the module itself declares,
   * after the variable, at least as many bytes as the blocks open at the variable then hold.
   */
  lemma InsideModule(frames: seq<StackFrame>, size: nat, later: seq<Step>)
    requires frames != [] && frames[0].start == 0 && KeepsModule(|frames|, [Declare(size)] + later)
    ensures var next := After(frames, Declare(size)).frames;
            && Run(next, later).Done? && Run(next, later).frames != []
            && (NextFree(frames) + size <= Run(next, later).frames[0].size
                <==> NextFree(next) - next[0].size <= ModuleBytes(|next|, later))
  {
    var next := After(frames, Declare(size)).frames;
    assert ([Declare(size)] + later)[1..] == later;
    ModuleGrows(next, later);
  }

  /** A variable in a block is outside the module's stack when nothing is declared after the block. */
  lemma NestedVariableOutside(size: nat)
    requires size > 0
    ensures var inner := [StackFrame(0, 0), StackFrame(0, 0)];
            var end := Run(After(inner, Declare(size)).frames, [PopFrame]);
            end.Done? && end.frames != [] && NextFree(inner) + size > end.frames[0].size
  {
    InsideModule([StackFrame(0, 0), StackFrame(0, 0)], size, [PopFrame]);
  }

  // ----- the translation state's frames -----

  class FrameStack {
    var frames: seq<StackFrame>

    constructor ()
      ensures frames == [StackFrame(0, 0)]
    {
      frames := [StackFrame(0, 0)];
    }

    method Push()
      modifies this
      ensures Done(frames) == After(old(frames), PushFrame)
    {
      frames := frames + [if frames == [] then StackFrame(0, 0) else StackFrame(Top(frames).start + Top(frames).size, 0)];
    }

    method Pop() returns (ok: bool)
      modifies this
      ensures (if ok then Done(frames) else ExtraPop) == After(old(frames), PopFrame) && (!ok ==> frames == old(frames))
    {
      if frames == [] { return false; }
      frames := frames[..|frames| - 1];
      ok := true;
    }

    /** The address of a new variable. */
    method DeclareVariable(size: nat) returns (offset: nat)
      requires frames != []
      modifies this
      ensures Done(frames) == After(old(frames), Declare(size)) && offset == NextFree(old(frames))
    {
      var top := Top(frames);
      offset := top.start + top.size;
      frames := frames[..|frames| - 1] + [StackFrame(top.start, top.size + size)];
    }
  }
}
