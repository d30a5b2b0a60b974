/** Modules in linking order: where they are placed, what relocation gives, and when linking succeeds. */
module LinkedModules {
  import opened Words
  import opened ByteCode
  import opened LinkSpec
  import opened LinkOrder
  import B = ByteMachine
  import S = Simulation
  import Machine

  predicate Distinct(order: seq<ModuleId>) {
    forall i, j :: 0 <= i < j < |order| ==> order[i] != order[j]
  }

  predicate AllPresent(order: seq<ModuleId>, files: map<ModuleId, ModuleFile>) {
    forall i :: 0 <= i < |order| ==> order[i] in files
  }

  /** The stack bytes of all modules together. */
  function StackTotal(order: seq<ModuleId>, files: map<ModuleId, ModuleFile>): nat
    requires AllPresent(order, files)
  {
    if order == [] then 0
    else StackTotal(order[..|order| - 1], files) + files[order[|order| - 1]].stackSize
  }

  // ----- module memory -----

  /** Module i starts right where the modules before it end. */
  lemma {:induction false} ModuleBase(start: Word, order: seq<ModuleId>, files: map<ModuleId, ModuleFile>, i: nat)
    requires Distinct(order) && AllPresent(order, files) && i < |order|
    requires start + StackTotal(order, files) < TWO64
    ensures order[i] in Place(start, order, files).bases
    ensures Place(start, order, files).bases[order[i]] == start + StackTotal(order[..i], files)
    ensures Place(start, order, files).offset == start + StackTotal(order, files)
    decreases |order|
  {
    var before := order[..|order| - 1];
    if before != [] {
      ModuleBase(start, before, files, if i < |before| then i else 0);
    }
    if i < |before| {
      assert before[..i] == order[..i];
    } else {
      assert order[..i] == before;
    }
  }

  lemma {:induction false} StackTotalPrefix(order: seq<ModuleId>, files: map<ModuleId, ModuleFile>, i: nat, j: nat)
    requires AllPresent(order, files) && i < j <= |order|
    ensures StackTotal(order[..i], files) + files[order[i]].stackSize <= StackTotal(order[..j], files)
    decreases j
  {
    assert order[..j][..j - 1] == order[..j - 1];
    if i < j - 1 {
      StackTotalPrefix(order, files, i, j - 1);
    }
  }

  /** Read-only data and the modules' ranges follow each other without gap or overlap. */
  lemma ModulesSeparate(start: Word, order: seq<ModuleId>, files: map<ModuleId, ModuleFile>, i: nat, j: nat)
    requires Distinct(order) && AllPresent(order, files) && i < j < |order|
    requires start + StackTotal(order, files) < TWO64
    ensures order[i] in Place(start, order, files).bases && order[j] in Place(start, order, files).bases
    ensures var bases := Place(start, order, files).bases;
            && start <= bases[order[i]]
            && bases[order[i]] + files[order[i]].stackSize <= bases[order[j]]
            && (j == i + 1 ==> bases[order[i]] + files[order[i]].stackSize == bases[order[j]])
            && bases[order[j]] + files[order[j]].stackSize <= start + StackTotal(order, files)
  {
    ModuleBase(start, order, files, i);
    ModuleBase(start, order, files, j);
    StackTotalPrefix(order, files, i, j);
    StackTotalPrefix(order, files, j, |order|);
    assert order[..|order|] == order;
    assert order[..i + 1][..i] == order[..i];
  }

  // ----- relocation -----

  /** The module at position i, or one before it, already has its final base when module i is linked. */
  lemma {:induction false} BasesStay(start: Word, order: seq<ModuleId>, files: map<ModuleId, ModuleFile>, k: nat, m: ModuleId)
    requires Distinct(order) && k <= |order|
    ensures m in order[..k] <==> m in Place(start, order[..k], files).bases
    ensures m in order[..k] ==>
              m in Place(start, order, files).bases
              && Place(start, order, files).bases[m] == Place(start, order[..k], files).bases[m]
    decreases |order|
  {
    if k == |order| {
      assert order[..k] == order;
      PlacedExactly(start, order, files, m);
    } else {
      var before := order[..|order| - 1];
      assert before[..k] == order[..k];
      BasesStay(start, before, files, k, m);
    }
  }

  lemma {:induction false} PlacedExactly(start: Word, order: seq<ModuleId>, files: map<ModuleId, ModuleFile>, m: ModuleId)
    ensures m in order <==> m in Place(start, order, files).bases
  {
    if order != [] {
      PlacedExactly(start, order[..|order| - 1], files, m);
      assert order == order[..|order| - 1] + [order[|order| - 1]];
    }
  }

  /**
   * A symbol used by module i resolves to its final address exactly when its own module is linked no later than module i
   * (or starts at address 0, as an unplaced module is taken to do).
   */
  lemma SymbolAddress(layout: Layout, start: Word, order: seq<ModuleId>, files: map<ModuleId, ModuleFile>, i: nat, a: Arg)
    requires Distinct(order) && i < |order| && a.source == Symbol && a.data < |layout.symbols|
    requires layout.symbols[a.data].kind == VariableSymbol && layout.symbols[a.data].moduleId in order
    ensures var owner := layout.symbols[a.data].moduleId;
            var final := Place(start, order, files).bases;
            && owner in final
            && (Relocate(layout.(bases := Place(start, order[..i + 1], files).bases), order[i], a)
                == Some(Arg(Wrap(final[owner] + layout.symbols[a.data].offset), MemoryAddress))
                <==> owner in order[..i + 1] || final[owner] == 0)
  {
    hide Place, Distinct;
    var s := layout.symbols[a.data];
    var now, final := Place(start, order[..i + 1], files).bases, Place(start, order, files).bases;
    BasesStay(start, order, files, i + 1, s.moduleId);
    PlacedExactly(start, order, files, s.moduleId);
    if s.moduleId !in order[..i + 1] {
      WrapShift(final[s.moduleId], s.offset);
    }
  }

  lemma WrapShift(base: Word, offset: Word)
    ensures Wrap(base + offset) == Wrap(0 + offset) <==> base == 0
  {
  }

  // ----- the whole program -----

  function Tagged(m: ModuleId, commands: seq<Command>): seq<B.Item> {
    seq(|commands|, i requires 0 <= i < |commands| => B.Item(m, commands[i]))
  }

  /** All commands in linking order, each with its module. */
  function Items(order: seq<ModuleId>, files: map<ModuleId, ModuleFile>): seq<B.Item>
    requires AllPresent(order, files)
  {
    if order == [] then []
    else
      var id := order[|order| - 1];
      Items(order[..|order| - 1], files) + Tagged(id, files[id].commands)
  }

  /** Symbols only name variables of modules linked no later than the module that uses them. */
  predicate DependencyOrder(layout: Layout, order: seq<ModuleId>, files: map<ModuleId, ModuleFile>)
    requires AllPresent(order, files)
  {
    forall i, k :: 0 <= i < |order| && 0 <= k < |files[order[i]].commands| ==>
      DependsOn(layout, files[order[i]].commands[k], order[..i + 1])
  }

  predicate DependsOn(layout: Layout, c: Command, placed: seq<ModuleId>) {
    && (c.arg0.source == Symbol && c.arg0.data < |layout.symbols| ==> layout.symbols[c.arg0.data].moduleId in placed)
    && c.arg1.source != Symbol && c.arg2.source != Symbol
  }

  lemma ArgumentFinally(layout: Layout, now: map<ModuleId, Word>, final: map<ModuleId, Word>, m: ModuleId, a: Arg)
    requires BaseOf(now, m) == BaseOf(final, m)
    requires a.source == Symbol && a.data < |layout.symbols| ==>
               BaseOf(now, layout.symbols[a.data].moduleId) == BaseOf(final, layout.symbols[a.data].moduleId)
    ensures Relocate(layout.(bases := now), m, a) == Relocate(layout.(bases := final), m, a)
  {
  }

  /**
   * What relocation does with an argument: it is refused exactly when it names a symbol or constant that is not there, or a function; places,
   * constants and variables become memory addresses; registers, numbers and other symbols stay.
   */
  lemma RelocateIsExact(layout: Layout, m: ModuleId, a: Arg)
    ensures var missing := (a.source == Symbol && a.data >= |layout.symbols|) || (a.source == Constant && a.data >= |layout.constantAddresses|);
            && (Relocate(layout, m, a) == None <==> missing || (a.source == Symbol && layout.symbols[a.data].kind == FunctionSymbol))
            && (Relocate(layout, m, a) == Some(a) <== B.NoReference(a) || (a.source == Symbol && !missing
                                                       && layout.symbols[a.data].kind !in {VariableSymbol, FunctionSymbol}))
            && (a.source == MemoryAddress && m in layout.bases ==>
                  Relocate(layout, m, a) == Some(Arg((layout.bases[m] + a.data) % TWO64, MemoryAddress)))
            && (a.source == Constant && !missing ==> Relocate(layout, m, a) == Some(Arg(layout.constantAddresses[a.data], MemoryAddress)))
  {
  }

  /** With all owners placed, relocating now is relocating with the final bases. */
  lemma RelocatedFinally(layout: Layout, start: Word, order: seq<ModuleId>, files: map<ModuleId, ModuleFile>, i: nat, c: Command)
    requires Distinct(order) && i < |order| && DependsOn(layout, c, order[..i + 1])
    ensures RelocateCommand(layout.(bases := Place(start, order[..i + 1], files).bases), order[i], c)
            == RelocateCommand(layout.(bases := Place(start, order, files).bases), order[i], c)
  {
    hide Relocate, Place;
    var now, final := Place(start, order[..i + 1], files).bases, Place(start, order, files).bases;
    BasesStay(start, order, files, i + 1, order[i]);
    assert order[..i + 1][i] == order[i];
    if c.arg0.source == Symbol && c.arg0.data < |layout.symbols| {
      BasesStay(start, order, files, i + 1, layout.symbols[c.arg0.data].moduleId);
    }
    ArgumentFinally(layout, now, final, order[i], c.arg0);
    ArgumentFinally(layout, now, final, order[i], c.arg1);
    ArgumentFinally(layout, now, final, order[i], c.arg2);
  }

  /** Every command the byte machine runs is accepted, and accepted commands relocate one by one. */
  lemma SupportedIsAccepted(layout: Layout, m: ModuleId, c: Command)
    requires B.CleanArguments(c) && B.Decode(c) != B.Unsupported && S.Named(layout, m, B.Decode(c))
    ensures RelocateCommand(layout, m, c).Some? && Expand(RelocateCommand(layout, m, c).value).Some?
  {
    NamedArgument(layout, m, c);
    var r := RelocateCommand(layout, m, c).value;
    SupportedExpands(c);
    SameCodeExpands(c, r);
  }

  lemma NamedArgument(layout: Layout, m: ModuleId, c: Command)
    requires B.CleanArguments(c) && B.Decode(c) != B.Unsupported && S.Named(layout, m, B.Decode(c))
    ensures B.NoReference(c.arg0) || B.IsPlace(layout, m, c.arg0) || B.IsConstant(layout, c.arg0)
    ensures RelocateCommand(layout, m, c).Some?
  {
  }

  lemma SupportedExpands(c: Command)
    requires B.Decode(c) != B.Unsupported
    ensures Expand(c).Some?
  {
  }

  lemma SameCodeExpands(c: Command, c': Command)
    requires c.code == c'.code
    ensures Expand(c).Some? <==> Expand(c').Some?
  {
    hide TableCode, SpellComparison, ConversionCode, SectionOf, ExpandMemory;
    SameMemoryExpands(c, c');
  }

  lemma SameMemoryExpands(c: Command, c': Command)
    requires c.code == c'.code
    ensures ExpandMemory(c).Some? <==> ExpandMemory(c').Some?
  {
  }

  /** The commands of one module, all accepted, relocate one by one. */
  lemma {:induction false} ModuleAccepted(layout: Layout, m: ModuleId, commands: seq<Command>)
    requires forall k :: 0 <= k < |commands| ==>
               var c := RelocateCommand(layout, m, commands[k]); c.Some? && Expand(c.value).Some?
    ensures ModuleCommands(layout, m, commands).Some?
    ensures forall k :: 0 <= k < |commands| ==>
              RelocateCommand(layout, m, commands[k]) == Some(ModuleCommands(layout, m, commands).value[k])
  {
    hide RelocateCommand, Expand;
    if commands != [] {
      ModuleAccepted(layout, m, commands[..|commands| - 1]);
    }
  }

  /** The relocated commands answer the items one by one. */
  ghost predicate Answers(layout: Layout, items: seq<B.Item>, cs: seq<Command>) {
    |cs| == |items| && forall k :: 0 <= k < |cs| ==> RelocateCommand(layout, items[k].m, items[k].cmd) == Some(cs[k])
  }

  /** Commands of the first modules are accepted with the bases of their turn and with the final ones. */
  ghost predicate AcceptedFinally(final: Layout, items: seq<B.Item>) {
    forall k :: 0 <= k < |items| ==>
      var c := RelocateCommand(final, items[k].m, items[k].cmd); c.Some? && Expand(c.value).Some?
  }

  /** All modules link, and every command is relocated as with the final layout. */
  lemma {:induction false} OrderAccepted(layout: Layout, start: Word, order: seq<ModuleId>, files: map<ModuleId, ModuleFile>,
                                         n: nat)
    requires Distinct(order) && AllPresent(order, files) && DependencyOrder(layout, order, files) && n <= |order|
    requires AcceptedFinally(layout.(bases := Place(start, order, files).bases), Items(order[..n], files))
    ensures LinkedCommands(layout, start, order[..n], files).Some?
    ensures Answers(layout.(bases := Place(start, order, files).bases), Items(order[..n], files),
                    LinkedCommands(layout, start, order[..n], files).value)
    decreases n
  {
    hide RelocateCommand, Expand, Place, ModuleCommands;
    if n > 0 {
      var final := layout.(bases := Place(start, order, files).bases);
      var now := layout.(bases := Place(start, order[..n], files).bases);
      var id := order[n - 1];
      var commands := files[id].commands;
      assert order[..n][..n - 1] == order[..n - 1];
      var before, items := Items(order[..n - 1], files), Items(order[..n], files);
      assert items == before + Tagged(id, commands);
      assert AcceptedFinally(final, before) by {
        assert forall k :: 0 <= k < |before| ==> items[k] == before[k];
      }
      OrderAccepted(layout, start, order, files, n - 1);
      forall k | 0 <= k < |commands|
        ensures RelocateCommand(now, id, commands[k]) == RelocateCommand(final, id, commands[k])
        ensures var c := RelocateCommand(now, id, commands[k]); c.Some? && Expand(c.value).Some?
      {
        assert items[|before| + k] == B.Item(id, commands[k]);
        assert DependsOn(layout, files[order[n - 1]].commands[k], order[..n - 1 + 1]);
        RelocatedFinally(layout, start, order, files, n - 1, commands[k]);
      }
      ModuleAccepted(now, id, commands);
    }
  }

  /**
   * A program that the byte machine runs, in dependency order and with unique labels, always links: every command is
   * accepted, every label is found, and the relocated commands are those of the final layout.
   */
  lemma ProgramLinks(layout: Layout, space: Machine.Space, start: Word, order: seq<ModuleId>, files: map<ModuleId, ModuleFile>)
    returns (l: S.Link)
    requires Distinct(order) && AllPresent(order, files) && DependencyOrder(layout, order, files)
    requires |layout.constants| == |layout.constantAddresses|
    requires var final := layout.(bases := Place(start, order, files).bases);
             B.SupportedProgram(final, Items(order, files)) && B.UniqueLabels(Items(order, files))
    ensures LinkedCommands(layout, start, order, files).Some?
    ensures l == S.Link(layout.(bases := Place(start, order, files).bases), space, Items(order, files),
                        LinkedCommands(layout, start, order, files).value)
    ensures |Emit(l.cs)| < TWO64 ==> S.LinkOk(l) && AllLabelsDefined(l.cs)
  {
    hide RelocateCommand, Expand, Place, ModuleCommands, B.Supported, B.Decode, Emit, Defs;
    var final := layout.(bases := Place(start, order, files).bases);
    var items := Items(order, files);
    forall k | 0 <= k < |items|
      ensures var c := RelocateCommand(final, items[k].m, items[k].cmd); c.Some? && Expand(c.value).Some?
    {
      assert B.SupportedItem(final, items, items[k]);
      SupportedIsNamed(final, items, items[k]);
      SupportedIsAccepted(final, items[k].m, items[k].cmd);
    }
    assert order[..|order|] == order;
    OrderAccepted(layout, start, order, files, |order|);
    l := S.Link(final, space, items, LinkedCommands(layout, start, order, files).value);
    if |Emit(l.cs)| < TWO64 {
      LabelsFound(l);
    }
  }

  lemma SupportedIsNamed(layout: Layout, program: seq<B.Item>, item: B.Item)
    requires B.SupportedItem(layout, program, item)
    ensures B.CleanArguments(item.cmd) && B.Decode(item.cmd) != B.Unsupported
    ensures S.Named(layout, item.m, B.Decode(item.cmd))
  {
    hide B.Decode;
  }

  /** Every jump operation comes from a jump command, whose label the program declares. */
  lemma LabelsFound(l: S.Link)
    requires S.LinkOk(l)
    ensures AllLabelsDefined(l.cs)
  {
    forall k | 0 <= k < |Emit(l.cs)| && IsJumpCode(Emit(l.cs)[k].code)
      ensures Defined(Defs(l.cs), Emit(l.cs)[k].arg0)
    {
      var j := JumpSource(l.cs, k);
      LabelFound(l, j);
    }
  }

  /** The command a jump operation comes from. */
  lemma {:induction false} JumpSource(cs: seq<Command>, k: nat) returns (j: nat)
    requires k < |Emit(cs)| && IsJumpCode(Emit(cs)[k].code)
    ensures j < |cs| && B.IsJump(cs[j]) && cs[j].arg0.data == Emit(cs)[k].arg0
    decreases |cs|
  {
    hide Emit, Expansion;
    EmitEmpty();
    EmitShorter(cs);
    var before := cs[..|cs| - 1];
    if k < |Emit(before)| {
      j := JumpSource(before, k);
    } else {
      j := |cs| - 1;
      JumpExpansion(cs[j], k - |Emit(before)|);
    }
  }

  lemma EmitEmpty()
    ensures Emit([]) == []
  {
  }

  lemma JumpExpansion(c: Command, t: nat)
    requires t < |Expansion(c)| && IsJumpCode(Expansion(c)[t].code)
    ensures B.IsJump(c) && c.arg0.data == Expansion(c)[t].arg0
  {
  }

  lemma LabelFound(l: S.Link, j: nat)
    requires S.LinkOk(l) && j < |l.cs| && B.IsJump(l.cs[j])
    ensures Defined(Defs(l.cs), l.cs[j].arg0.data)
  {
    assert B.SupportedItem(l.layout, l.program, l.program[j]);
    assert RelocateCommand(l.layout, l.program[j].m, l.program[j].cmd) == Some(l.cs[j]);
    S.RelocatedOperands(l.layout, l.program[j].m, l.program[j].cmd, l.cs[j]);
    JumpDecodes(l.program[j].cmd);
    var i := B.FindLabel(l.program, l.cs[j].arg0.data);
    S.LabelSurvives(l, i, l.cs[j].arg0.data);
    S.LabelHasDef(l.cs, i);
  }

  lemma JumpDecodes(c: Command)
    requires B.IsJump(c)
    ensures B.Decode(c).Jump? && B.Decode(c).target == c.arg0.data
    ensures B.CleanArguments(c) ==> B.NoReference(c.arg0)
  {
  }
}
