/** Modules placed one after another, and the commands they contribute. */
module LinkOrder {
  import opened Words
  import opened ByteCode
  import opened LinkSpec

  /** A module's object file: its commands and the stack bytes of its variables. */
  datatype ModuleFile = ModuleFile(commands: seq<Command>, stackSize: Word)

  /** The bases given out so far and the next free offset. */
  datatype Placement = Placement(bases: map<ModuleId, Word>, offset: Word)

  function Place(start: Word, order: seq<ModuleId>, files: map<ModuleId, ModuleFile>): Placement {
    if order == [] then Placement(map[], start)
    else
      var p := Place(start, order[..|order| - 1], files);
      var id := order[|order| - 1];
      Placement(p.bases[id := p.offset], if id in files then Wrap(p.offset + files[id].stackSize) else p.offset)
  }

  /** One module's commands after relocation; None when one of them is refused. */
  function ModuleCommands(layout: Layout, m: ModuleId, commands: seq<Command>): (r: Option<seq<Command>>)
    ensures r.Some? ==> |r.value| == |commands|
  {
    if commands == [] then Some([])
    else
      var r := ModuleCommands(layout, m, commands[..|commands| - 1]);
      var c := RelocateCommand(layout, m, commands[|commands| - 1]);
      if r.Some? && c.Some? && Expand(c.value).Some? then Some(r.value + [c.value]) else None
  }

  /** All modules' commands in linking order, each module relocated with the bases known at its turn. */
  function LinkedCommands(layout: Layout, start: Word, order: seq<ModuleId>, files: map<ModuleId, ModuleFile>)
    : Option<seq<Command>>
  {
    if order == [] then Some([])
    else
      var r := LinkedCommands(layout, start, order[..|order| - 1], files);
      var id := order[|order| - 1];
      if r.None? || id !in files then None
      else
        var m := ModuleCommands(layout.(bases := Place(start, order, files).bases), id, files[id].commands);
        if m.Some? then Some(r.value + m.value) else None
  }

  lemma ModuleCommandsStep(layout: Layout, m: ModuleId, commands: seq<Command>, i: nat)
    requires i < |commands|
    ensures var r := ModuleCommands(layout, m, commands[..i]);
            var c := RelocateCommand(layout, m, commands[i]);
            ModuleCommands(layout, m, commands[..i + 1]) ==
            if r.Some? && c.Some? && Expand(c.value).Some? then Some(r.value + [c.value]) else None
  {
    assert commands[..i + 1][..i] == commands[..i];
  }

  lemma {:induction false} RefusedStays(layout: Layout, m: ModuleId, commands: seq<Command>, i: nat)
    requires i <= |commands| && ModuleCommands(layout, m, commands[..i]).None?
    ensures ModuleCommands(layout, m, commands).None?
    decreases |commands| - i
  {
    if i == |commands| {
      assert commands[..i] == commands;
    } else {
      ModuleCommandsStep(layout, m, commands, i);
      RefusedStays(layout, m, commands, i + 1);
    }
  }

  lemma {:induction false} FailedStays(layout: Layout, start: Word, order: seq<ModuleId>, files: map<ModuleId, ModuleFile>, i: nat)
    requires i <= |order| && LinkedCommands(layout, start, order[..i], files).None?
    ensures LinkedCommands(layout, start, order, files).None?
    decreases |order| - i
  {
    if i == |order| {
      assert order[..i] == order;
    } else {
      assert order[..i + 1][..i] == order[..i];
      FailedStays(layout, start, order, files, i + 1);
    }
  }

  lemma LinkedCommandsStep(layout: Layout, start: Word, order: seq<ModuleId>, files: map<ModuleId, ModuleFile>, i: nat)
    requires i < |order|
    ensures var r := LinkedCommands(layout, start, order[..i], files);
            var id := order[i];
            var p := Place(start, order[..i], files);
            var bases := p.bases[id := p.offset];
            && Place(start, order[..i + 1], files)
               == Placement(bases, if id in files then Wrap(p.offset + files[id].stackSize) else p.offset)
            && LinkedCommands(layout, start, order[..i + 1], files) ==
               if r.None? || id !in files then None
               else
                 var m := ModuleCommands(layout.(bases := bases), id, files[id].commands);
                 if m.Some? then Some(r.value + m.value) else None
  {
    assert order[..i + 1][..i] == order[..i];
  }
}
