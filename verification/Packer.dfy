/** The packer: sizes are counted first, then a zeroed buffer is filled through an advancing offset. */
module Packer {
  import opened Words
  import opened ByteCode
  import opened Buffers
  import opened ObjectFormat
  import opened CodeFormat

  /** The buffer holds what has been written, then zeros. */
  ghost predicate Filled(content: seq<Byte>, written: seq<Byte>) {
    |written| <= |content| && content == written + Zeros(|content| - |written|)
  }

  method AppendBytes(buffer: array<Byte>, offset: nat, data: seq<Byte>, ghost written: seq<Byte>) returns (next: nat)
    requires offset == |written| && offset + |data| <= buffer.Length && Filled(buffer[..], written)
    modifies buffer
    ensures next == offset + |data| && Filled(buffer[..], written + data)
  {
    SpliceAppend(written, buffer.Length, data);
    CopyInto(buffer, offset, data);
    next := offset + |data|;
  }

  /** Skipping ahead leaves zeros. */
  lemma Skipped(content: seq<Byte>, written: seq<Byte>, n: nat)
    requires Filled(content, written) && |written| <= n <= |content|
    ensures Filled(content, PadTo(written, n))
  {
    assert Zeros(|content| - |written|) == Zeros(n - |written|) + Zeros(|content| - n);
  }

  method WriteSectionInfo(buffer: array<Byte>, offset: nat, kind: Byte, dataOffset: nat, dataSize: nat, ghost written: seq<Byte>)
    returns (next: nat)
    requires offset == |written| && offset + 17 <= buffer.Length && Filled(buffer[..], written)
    modifies buffer
    ensures next == offset + 17 && Filled(buffer[..], written + SectionInfo(kind, dataOffset, dataSize))
  {
    next := AppendBytes(buffer, offset, [kind], written);
    next := AppendBytes(buffer, next, LE(dataOffset, 8), written + [kind]);
    next := AppendBytes(buffer, next, LE(dataSize, 8), written + [kind] + LE(dataOffset, 8));
    assert written + [kind] + LE(dataOffset, 8) + LE(dataSize, 8) == written + SectionInfo(kind, dataOffset, dataSize);
  }

  method CountConstants(constants: seq<seq<Byte>>) returns (size: nat)
    ensures size == ConstantsSize(constants)
  {
    size := 0;
    var i := 0;
    while i < |constants|
      invariant 0 <= i <= |constants|
      invariant size + ConstantsSize(constants[i..]) == ConstantsSize(constants)
    {
      assert constants[i..][0] == constants[i] && constants[i..][1..] == constants[i + 1..];
      size := size + 16 + |constants[i]|;
      i := i + 1;
    }
  }

  method WritePreamble(buffer: array<Byte>, m: MoState) returns (offset: nat)
    requires buffer.Length >= MO_HEADER_SIZE && Filled(buffer[..], [])
    modifies buffer
    ensures offset == 53 && Filled(buffer[..], MoPreamble(m))
  {
    hide LE;
    offset := AppendBytes(buffer, 0, MoMagic(), []);
    ghost var w := [] + MoMagic();
    offset := AppendBytes(buffer, offset, m.version, w);
    w := w + m.version;
    offset := AppendBytes(buffer, offset, LE(m.flags, 2), w);
    w := w + LE(m.flags, 2);
    offset := AppendBytes(buffer, offset, PadTo(ModulePrefix(), PREFIX_SIZE), w);
    w := w + PadTo(ModulePrefix(), PREFIX_SIZE);
    offset := AppendBytes(buffer, offset, PadTo(ModuleExtension(), EXTENSION_SIZE), w);
    w := w + PadTo(ModuleExtension(), EXTENSION_SIZE);
    assert w == MoPreamble(m);
  }

  method WriteHeader(buffer: array<Byte>, m: MoState, x: Sections)
    requires x == SectionsOf(m) && buffer.Length == x.end && Filled(buffer[..], [])
    modifies buffer
    ensures Filled(buffer[..], MoPreamble(m) + SectionTable(m))
  {
    hide MoPreamble, SectionInfo, ConstantsSize;
    var offset := WritePreamble(buffer, m);
    ghost var w := MoPreamble(m);
    ghost var e1 := SectionInfo(LINKING_ORDER, x.order, x.constants - x.order);
    ghost var e2 := SectionInfo(CONSTANTS, x.constants, x.symbols - x.constants);
    ghost var e3 := SectionInfo(SYMBOLS, x.symbols, x.debug - x.symbols);
    ghost var e4 := SectionInfo(DEBUG, x.debug, x.end - x.debug);
    offset := WriteSectionInfo(buffer, offset, LINKING_ORDER, x.order, x.constants - x.order, w);
    offset := WriteSectionInfo(buffer, offset, CONSTANTS, x.constants, x.symbols - x.constants, w + e1);
    offset := WriteSectionInfo(buffer, offset, SYMBOLS, x.symbols, x.debug - x.symbols, w + e1 + e2);
    offset := WriteSectionInfo(buffer, offset, DEBUG, x.debug, x.end - x.debug, w + e1 + e2 + e3);
    Regroup4(w, e1, e2, e3, e4);
  }

  lemma Regroup4(w: seq<Byte>, a: seq<Byte>, b: seq<Byte>, c: seq<Byte>, d: seq<Byte>)
    ensures w + a + b + c + d == w + (a + b + c + d)
  {
  }

  method WriteOrder(buffer: array<Byte>, start: nat, order: seq<ModuleId>, ghost written: seq<Byte>) returns (offset: nat)
    requires start == |written| && start + 2 * |order| <= buffer.Length && Filled(buffer[..], written)
    modifies buffer
    ensures offset == start + 2 * |order| && Filled(buffer[..], written + OrderBytes(order))
  {
    offset := start;
    ghost var w := written;
    var i := 0;
    assert order[0..] == order;
    while i < |order|
      invariant 0 <= i <= |order| && offset == |w| == start + 2 * i
      invariant Filled(buffer[..], w) && w + OrderBytes(order[i..]) == written + OrderBytes(order)
    {
      assert order[i..][0] == order[i] && order[i..][1..] == order[i + 1..];
      offset := AppendBytes(buffer, offset, LE(order[i], 2), w);
      assert w + (LE(order[i], 2) + OrderBytes(order[i + 1..])) == w + LE(order[i], 2) + OrderBytes(order[i + 1..]);
      w := w + LE(order[i], 2);
      i := i + 1;
    }
    assert w + OrderBytes([]) == w;
  }

  method WriteConstant(buffer: array<Byte>, start: nat, id: nat, data: seq<Byte>, ghost w: seq<Byte>) returns (offset: nat)
    requires start == |w| && start + 16 + |data| <= buffer.Length && Filled(buffer[..], w)
    modifies buffer
    ensures offset == start + |ConstantBytes(id, data)| && Filled(buffer[..], w + ConstantBytes(id, data))
  {
    hide LE;
    offset := AppendBytes(buffer, start, LE(id, 8), w);
    offset := AppendBytes(buffer, offset, LE(|data|, 8), w + LE(id, 8));
    offset := AppendBytes(buffer, offset, data, w + LE(id, 8) + LE(|data|, 8));
    assert w + LE(id, 8) + LE(|data|, 8) + data == w + ConstantBytes(id, data);
  }

  method WriteConstants(buffer: array<Byte>, start: nat, constants: seq<seq<Byte>>, ghost written: seq<Byte>) returns (offset: nat)
    requires start == |written| && start + ConstantsSize(constants) <= buffer.Length && Filled(buffer[..], written)
    modifies buffer
    ensures offset == start + ConstantsSize(constants) && Filled(buffer[..], written + ConstantsBytes(constants, 0))
  {
    hide ConstantBytes, SymbolBytes;
    offset := start;
    ghost var w := written;
    var i := 0;
    assert constants[0..] == constants;
    while i < |constants|
      invariant 0 <= i <= |constants| && offset == |w|
      invariant offset + ConstantsSize(constants[i..]) == start + ConstantsSize(constants)
      invariant Filled(buffer[..], w) && w + ConstantsBytes(constants[i..], i) == written + ConstantsBytes(constants, 0)
    {
      var data := constants[i];
      assert constants[i..][0] == data && constants[i..][1..] == constants[i + 1..];
      offset := WriteConstant(buffer, offset, i, data, w);
      ghost var rest := ConstantsBytes(constants[i + 1..], i + 1);
      assert w + (ConstantBytes(i, data) + rest) == w + ConstantBytes(i, data) + rest;
      w := w + ConstantBytes(i, data);
      i := i + 1;
    }
    assert w + ConstantsBytes([], i) == w;
  }

  /** A symbol that is neither a variable nor a function is written without offset and module. */
  method WriteSymbol(buffer: array<Byte>, start: nat, id: nat, s: SymbolData, ghost w: seq<Byte>) returns (offset: nat)
    requires start == |w| && start + SYMBOL_SIZE <= buffer.Length && Filled(buffer[..], w)
    modifies buffer
    ensures offset == start + |SymbolBytes(id, s)| && Filled(buffer[..], w + SymbolBytes(id, s))
  {
    hide LE;
    offset := AppendBytes(buffer, start, LE(id, 8), w);
    ghost var place: seq<Byte> := [];
    if s.kind == FunctionSymbol || s.kind == VariableSymbol {
      offset := AppendBytes(buffer, offset, LE(s.offset, 8), w + LE(id, 8));
      offset := AppendBytes(buffer, offset, LE(s.moduleId, 2), w + LE(id, 8) + LE(s.offset, 8));
      place := LE(s.offset, 8) + LE(s.moduleId, 2);
      assert w + LE(id, 8) + LE(s.offset, 8) + LE(s.moduleId, 2) == w + LE(id, 8) + place;
    } else {
      assert w + LE(id, 8) + place == w + LE(id, 8);
    }
    offset := AppendBytes(buffer, offset, [KindNumber(s.kind)], w + LE(id, 8) + place);
    assert w + LE(id, 8) + place + [KindNumber(s.kind)] == w + SymbolBytes(id, s);
  }

  method WriteSymbols(buffer: array<Byte>, start: nat, symbols: seq<SymbolData>, ghost written: seq<Byte>) returns (offset: nat)
    requires start == |written| && start + SYMBOL_SIZE * |symbols| <= buffer.Length && Filled(buffer[..], written)
    modifies buffer
    ensures offset == start + |SymbolsBytes(symbols, 0)| && Filled(buffer[..], written + SymbolsBytes(symbols, 0))
  {
    hide ConstantBytes, SymbolBytes;
    offset := start;
    ghost var w := written;
    var i := 0;
    assert symbols[0..] == symbols;
    while i < |symbols|
      invariant 0 <= i <= |symbols| && offset == |w| <= start + SYMBOL_SIZE * i
      invariant Filled(buffer[..], w) && w + SymbolsBytes(symbols[i..], i) == written + SymbolsBytes(symbols, 0)
    {
      var s := symbols[i];
      assert symbols[i..][0] == s && symbols[i..][1..] == symbols[i + 1..];
      offset := WriteSymbol(buffer, offset, i, s, w);
      ghost var rest := SymbolsBytes(symbols[i + 1..], i + 1);
      assert w + (SymbolBytes(i, s) + rest) == w + SymbolBytes(i, s) + rest;
      w := w + SymbolBytes(i, s);
      i := i + 1;
    }
    assert w + SymbolsBytes([], i) == w;
  }

  method ByterizeCompilationState(m: MoState) returns (buffer: array<Byte>)
    ensures fresh(buffer) && buffer[..] == MoBytes(m)
  {
    hide OrderBytes, ConstantsBytes, SymbolsBytes, SectionTable, MoPreamble, LE;
    var constants := MO_HEADER_SIZE + 2 * |m.order|;
    var constantsSize := CountConstants(m.constants);
    var symbols := constants + constantsSize;
    var debug := symbols + SYMBOL_SIZE * |m.symbols|;
    var x := Sections(MO_HEADER_SIZE, constants, symbols, debug, debug + DEBUG_SIZE);
    buffer := new Byte[x.end](_ => 0);
    assert buffer[..] == [] + Zeros(x.end);
    WriteHeader(buffer, m, x);
    ghost var head := MoPreamble(m) + SectionTable(m);
    Skipped(buffer[..], head, MO_HEADER_SIZE);
    ghost var w := PadTo(head, MO_HEADER_SIZE);
    var offset := WriteOrder(buffer, MO_HEADER_SIZE, m.order, w);
    w := w + OrderBytes(m.order);
    offset := WriteConstants(buffer, offset, m.constants, w);
    w := w + ConstantsBytes(m.constants, 0);
    offset := WriteSymbols(buffer, offset, m.symbols, w);
    TailIsZero(buffer[..], w, SymbolsBytes(m.symbols, 0), SYMBOL_SIZE * |m.symbols|);
    Regroup(PadTo(head, MO_HEADER_SIZE), OrderBytes(m.order), ConstantsBytes(m.constants, 0),
            PadTo(SymbolsBytes(m.symbols, 0), SYMBOL_SIZE * |m.symbols|), Zeros(DEBUG_SIZE));
  }

  lemma TailIsZero(content: seq<Byte>, w: seq<Byte>, symbols: seq<Byte>, n: nat)
    requires Filled(content, w + symbols) && |symbols| <= n && |content| == |w| + n + DEBUG_SIZE
    ensures content == w + PadTo(symbols, n) + Zeros(DEBUG_SIZE)
  {
  }

  lemma Regroup(a: seq<Byte>, b: seq<Byte>, c: seq<Byte>, d: seq<Byte>, e: seq<Byte>)
    ensures a + b + c + d + e == a + (b + c + d + e)
  {
  }

  method WriteArg(buffer: array<Byte>, offset: nat, a: Arg, ghost written: seq<Byte>) returns (next: nat)
    requires offset == |written| && offset + 9 <= buffer.Length && Filled(buffer[..], written)
    modifies buffer
    ensures next == offset + 9 && Filled(buffer[..], written + ArgBytes(a))
  {
    next := AppendBytes(buffer, offset, [SourceNumber(a.source)], written);
    next := AppendBytes(buffer, next, LE(a.data, 8), written + [SourceNumber(a.source)]);
    assert written + [SourceNumber(a.source)] + LE(a.data, 8) == written + ArgBytes(a);
  }

  method WriteCommand(buffer: array<Byte>, offset: nat, c: Command, ghost written: seq<Byte>) returns (next: nat)
    requires offset == |written| && offset + COMMAND_SIZE <= buffer.Length && Filled(buffer[..], written)
    modifies buffer
    ensures next == offset + COMMAND_SIZE && Filled(buffer[..], written + CommandBytes(c))
  {
    hide ArgBytes, LE, OpNumber;
    next := AppendBytes(buffer, offset, [OpNumber(c.code)], written);
    ghost var w := written + [OpNumber(c.code)];
    next := WriteArg(buffer, next, c.arg0, w);
    w := w + ArgBytes(c.arg0);
    next := WriteArg(buffer, next, c.arg1, w);
    w := w + ArgBytes(c.arg1);
    next := WriteArg(buffer, next, c.arg2, w);
    w := w + ArgBytes(c.arg2);
    next := AppendBytes(buffer, next, LE(c.flags, 4), w);
    w := w + LE(c.flags, 4);
    next := AppendBytes(buffer, next, LE(c.line, 4), w);
    assert w + LE(c.line, 4) == written + CommandBytes(c);
  }

  method ByterizeCommands(m: CoState) returns (buffer: array<Byte>)
    ensures fresh(buffer) && buffer[..] == CoBytes(m)
  {
    hide LE, CommandBytes;
    var commandsSize := |m.commands| * COMMAND_SIZE;
    buffer := new Byte[CO_HEADER_SIZE + commandsSize](_ => 0);
    assert buffer[..] == [] + Zeros(buffer.Length);
    var offset := AppendBytes(buffer, 0, CoMagic(), []);
    ghost var w := [] + CoMagic();
    offset := AppendBytes(buffer, offset, m.version, w);
    w := w + m.version;
    offset := AppendBytes(buffer, offset, LE(m.flags, 2), w);
    w := w + LE(m.flags, 2);
    offset := AppendBytes(buffer, offset, LE(commandsSize, 8), w);
    w := w + LE(commandsSize, 8);
    offset := AppendBytes(buffer, offset, LE(m.stackSize, 8), w);
    w := w + LE(m.stackSize, 8);
    assert w == CoPreamble(m);
    Skipped(buffer[..], w, CO_HEADER_SIZE);
    w := PadTo(w, CO_HEADER_SIZE);
    ghost var head := w;
    offset := CO_HEADER_SIZE;
    var i := 0;
    assert m.commands[0..] == m.commands;
    while i < |m.commands|
      invariant 0 <= i <= |m.commands| && offset == |w| == CO_HEADER_SIZE + COMMAND_SIZE * i
      invariant fresh(buffer) && buffer.Length == CO_HEADER_SIZE + commandsSize
      invariant Filled(buffer[..], w) && w + CommandsBytes(m.commands[i..]) == head + CommandsBytes(m.commands)
    {
      ghost var c, rest := CommandBytes(m.commands[i]), CommandsBytes(m.commands[i + 1..]);
      assert m.commands[i..][0] == m.commands[i] && m.commands[i..][1..] == m.commands[i + 1..];
      offset := WriteCommand(buffer, offset, m.commands[i], w);
      assert w + (c + rest) == w + c + rest;
      w := w + c;
      i := i + 1;
    }
    assert w + CommandsBytes([]) == w;
  }
}
