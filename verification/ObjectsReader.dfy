/** The object reader: loops that advance an offset through a section and append what they read to the linking state. */
module ObjectsReader {
  import opened Words
  import opened ByteCode
  import opened ReadOnlyData
  import opened ObjectFormat
  import opened CodeFormat

  class ObjectsReader {
    const constantsAlignment: bool
    var state: LinkingState

    constructor (constantsAlignment: bool)
      ensures this.constantsAlignment == constantsAlignment
    {
      this.constantsAlignment := constantsAlignment;
      state := LinkingState([0, 0, 0, 0], 0, [], [], [], [], 0, []);
    }

    method HandleLOSection(b: seq<Byte>, start: nat, size: nat) returns (ok: bool)
      modifies this
      ensures var p := ReadOrder(b, start, start + size);
              ok == p.Some? && (ok ==> state == old(state).(order := old(state).order + p.value.items))
    {
      var offset := start;
      ghost var done: seq<ModuleId> := [];
      assert old(state).order + done == old(state).order;
      while offset < start + size
        invariant state == old(state).(order := old(state).order + done)
        invariant Before(done, ReadOrder(b, offset, start + size)) == Before([], ReadOrder(b, start, start + size))
        decreases start + size - offset
      {
        if offset + 2 > |b| { BeforeNothing(ReadOrder(b, start, start + size)); return false; }
        TwoBytes(b, offset);
        var id: ModuleId := ReadNat(b, offset, 2);
        BeforeCons(done, id, ReadOrder(b, offset + 2, start + size));
        assert old(state).order + done + [id] == old(state).order + (done + [id]);
        state := state.(order := state.order + [id]);
        done := done + [id];
        offset := offset + 2;
      }
      BeforeNothing(ReadOrder(b, start, start + size));
      assert done + [] == done;
      ok := true;
    }

    method HandleConstantsSection(b: seq<Byte>, start: nat, size: nat) returns (ok: bool)
      modifies this
      ensures var p := ReadConstants(b, start, start + size, constantsAlignment);
              ok == p.Some?
              && (ok ==> state == old(state).(constants := old(state).constants + p.value.items,
                                              constantsSize := old(state).constantsSize + SumSizes(p.value.items)))
    {
      hide ReadNat;
      var offset := start;
      ghost var done: seq<ConstantData> := [];
      ghost var expected := ReadConstants(b, start, start + size, constantsAlignment);
      assert old(state).constants + done == old(state).constants;
      while offset < start + size
        invariant state == old(state).(constants := old(state).constants + done,
                                       constantsSize := old(state).constantsSize + SumSizes(done))
        invariant Before(done, ReadConstants(b, offset, start + size, constantsAlignment)) == Before([], expected)
        decreases start + size - offset
      {
        if offset + 16 > |b| { BeforeNothing(expected); return false; }
        EightBytes(b, offset);
        var id, dataSize := ReadNat(b, offset, 8), ReadNat(b, offset + 8, 8);
        if offset + 16 + dataSize > |b| { BeforeNothing(expected); return false; }
        var constant := ConstantData(id, b[offset + 16..offset + 16 + dataSize], dataSize);
        if constantsAlignment {
          constant := constant.(usingSize := ((dataSize + DEFAULT_ALIGNMENT - 1) / DEFAULT_ALIGNMENT) * DEFAULT_ALIGNMENT);
        }
        BeforeCons(done, constant, ReadConstants(b, offset + 16 + dataSize, start + size, constantsAlignment));
        SumAppend(done, constant);
        assert old(state).constants + done + [constant] == old(state).constants + (done + [constant]);
        state := state.(constants := state.constants + [constant], constantsSize := state.constantsSize + constant.usingSize);
        done := done + [constant];
        offset := offset + 16 + dataSize;
      }
      BeforeNothing(expected);
      assert done + [] == done;
      ok := true;
    }

    method HandleSymbolSection(b: seq<Byte>, start: nat, size: nat) returns (ok: bool)
      modifies this
      ensures var p := ReadSymbols(b, start, start + size);
              ok == p.Some? && (ok ==> state == old(state).(symbols := old(state).symbols + p.value.items))
    {
      var offset := start;
      ghost var done: seq<SymbolData> := [];
      assert old(state).symbols + done == old(state).symbols;
      while offset < start + size
        invariant state == old(state).(symbols := old(state).symbols + done)
        invariant Before(done, ReadSymbols(b, offset, start + size)) == Before([], ReadSymbols(b, start, start + size))
        decreases start + size - offset
      {
        if offset + SYMBOL_SIZE > |b| { BeforeNothing(ReadSymbols(b, start, start + size)); return false; }
        var symbol := ReadSymbol(b, offset);
        if symbol.None? { BeforeNothing(ReadSymbols(b, start, start + size)); return false; }
        BeforeCons(done, symbol.value, ReadSymbols(b, offset + SYMBOL_SIZE, start + size));
        assert old(state).symbols + done + [symbol.value] == old(state).symbols + (done + [symbol.value]);
        state := state.(symbols := state.symbols + [symbol.value]);
        done := done + [symbol.value];
        offset := offset + SYMBOL_SIZE;
      }
      BeforeNothing(ReadSymbols(b, start, start + size));
      assert done + [] == done;
      ok := true;
    }

    method DeserializeMO(b: seq<Byte>) returns (ok: bool)
      modifies this
      ensures var r := ReadMo(b, constantsAlignment); ok == r.Some? && (ok ==> state == r.value)
    {
      hide ReadOrder, ReadConstants, ReadSymbols, ReadNat, SumSizes;
      if |b| < MO_HEADER_SIZE || b[..MAGIC_SIZE] != MoMagic() { return false; }
      state := EmptyState(b);
      ghost var expected := ReadMo(b, constantsAlignment);
      var offset, i := 53, 0;
      while i < 4
        invariant 0 <= i <= 4 && offset == 53 + 17 * i
        invariant ReadSections(b, offset, 4 - i, constantsAlignment, state) == expected
      {
        var kind, sectionOffset, sectionSize := b[offset], ReadNat(b, offset + 1, 8), ReadNat(b, offset + 9, 8);
        ghost var next := ReadSection(b, offset, constantsAlignment, state);
        assert expected == match next case Some(s) => ReadSections(b, offset + 17, 3 - i, constantsAlignment, s) case None => None;
        if offset + 17 + sectionSize > |b| { return false; }
        ok := true;
        if kind == LINKING_ORDER {
          ok := HandleLOSection(b, sectionOffset, sectionSize);
        } else if kind == CONSTANTS {
          ok := HandleConstantsSection(b, sectionOffset, sectionSize);
        } else if kind == SYMBOLS {
          ok := HandleSymbolSection(b, sectionOffset, sectionSize);
        }
        if !ok { return; }
        offset := offset + 17;
        i := i + 1;
      }
      ok := true;
    }

    method DeserializeCO(b: seq<Byte>) returns (r: Option<CommandsPool>)
      ensures r == ReadCo(b)
    {
      hide ReadCommand, ReadNat;
      if |b| < CO_HEADER_SIZE || b[..MAGIC_SIZE] != CoMagic() { return None; }
      var codeSize := ReadNat(b, 11, 8);
      var end := CO_HEADER_SIZE + codeSize;
      var commands: seq<Command> := [];
      var offset := CO_HEADER_SIZE;
      while offset < end
        invariant Before(commands, ReadCommands(b, offset, end)) == Before([], ReadCommands(b, CO_HEADER_SIZE, end))
        decreases end - offset
      {
        if offset + COMMAND_SIZE > |b| { BeforeNothing(ReadCommands(b, CO_HEADER_SIZE, end)); return None; }
        var command := ReadCommand(b, offset);
        if command.None? { BeforeNothing(ReadCommands(b, CO_HEADER_SIZE, end)); return None; }
        BeforeCons(commands, command.value, ReadCommands(b, offset + COMMAND_SIZE, end));
        commands := commands + [command.value];
        offset := offset + COMMAND_SIZE;
      }
      BeforeNothing(ReadCommands(b, CO_HEADER_SIZE, end));
      assert commands + [] == commands;
      return Some(CommandsPool(b[5..9], ReadNat(b, 9, 2), codeSize, ReadNat(b, 19, 8), commands));
    }
  }

  /** What has been read so far, in front of what is still to be read. */
  ghost function Before<T>(done: seq<T>, p: Option<Parsed<T>>): Option<Parsed<T>> {
    match p
    case Some(x) => Some(Parsed(done + x.items, x.index))
    case None => None
  }

  lemma BeforeNothing<T>(p: Option<Parsed<T>>)
    ensures Before([], p) == p
  {
    if p.Some? {
      assert [] + p.value.items == p.value.items;
    }
  }

  lemma BeforeCons<T>(done: seq<T>, x: T, p: Option<Parsed<T>>)
    ensures Before(done, match p case Some(y) => Some(Cons(x, y)) case None => None) == Before(done + [x], p)
  {
    if p.Some? {
      assert done + ([x] + p.value.items) == done + [x] + p.value.items;
    }
  }

  lemma {:induction false} SumAppend(constants: seq<ConstantData>, c: ConstantData)
    ensures SumSizes(constants + [c]) == SumSizes(constants) + c.usingSize
    decreases |constants|
  {
    if constants == [] {
      assert [] + [c] == [c] && [c][1..] == [];
    } else {
      assert (constants + [c])[0] == constants[0] && (constants + [c])[1..] == constants[1..] + [c];
      SumAppend(constants[1..], c);
    }
  }
}
