/** What the object reader makes of the packer's files: every field comes back, except where the layout loses it. */
module ObjectRoundTrip {
  import opened Words
  import opened ByteCode
  import opened Buffers
  import opened ReadOnlyData
  import opened ObjectFormat

  // ----- bytes inside bytes -----

  predicate At(b: seq<Byte>, i: nat, x: seq<Byte>) {
    i + |x| <= |b| && b[i..i + |x|] == x
  }

  lemma AtSplit(b: seq<Byte>, i: nat, x: seq<Byte>, y: seq<Byte>)
    requires At(b, i, x + y)
    ensures At(b, i, x) && At(b, i + |x|, y)
  {
    assert b[i..i + |x + y|][..|x|] == x && b[i..i + |x + y|][|x|..] == y;
  }

  lemma AtByte(b: seq<Byte>, i: nat, x: Byte)
    requires At(b, i, [x])
    ensures i < |b| && b[i] == x
  {
    assert b[i..i + 1][0] == x;
  }

  lemma AtNat(b: seq<Byte>, i: nat, v: nat, n: nat)
    requires At(b, i, LE(v, n)) && v < Pow256(n)
    ensures i + n <= |b| && ReadNat(b, i, n) == v
  {
    DecodeEncode(v, n);
    SmallModulo(v, Pow256(n));
  }

  lemma SmallModulo(v: nat, p: nat)
    requires v < p
    ensures v % p == v
  {
  }

  lemma AtWord(b: seq<Byte>, i: nat, v: Word)
    requires At(b, i, LE(v, 8))
    ensures i + 8 <= |b| && ReadNat(b, i, 8) == v
  {
    Pow256Of8();
    AtNat(b, i, v, 8);
  }

  // ----- sections -----

  /** The linking order comes back, and reading stops exactly at the section's end. */
  lemma {:induction false} OrderRead(b: seq<Byte>, i: nat, order: seq<ModuleId>)
    requires At(b, i, OrderBytes(order))
    ensures ReadOrder(b, i, i + 2 * |order|) == Some(Parsed(order, i + 2 * |order|))
    decreases |order|
  {
    if order != [] {
      AtSplit(b, i, LE(order[0], 2), OrderBytes(order[1..]));
      Pow256Of8();
      AtNat(b, i, order[0], 2);
      OrderRead(b, i + 2, order[1..]);
      assert [order[0]] + order[1..] == order;
    }
  }

  /** Constants as the linker keeps them: ids in order, sizes rounded up when alignment is on. */
  function Kept(constants: seq<seq<Byte>>, first: nat, aligned: bool): seq<ConstantData>
    requires first + |constants| <= TWO64
  {
    if constants == [] then []
    else [ConstantData(first, constants[0], UsingSize(aligned, |constants[0]|))] + Kept(constants[1..], first + 1, aligned)
  }

  lemma {:induction false} KeptAt(constants: seq<seq<Byte>>, first: nat, aligned: bool, k: nat)
    requires first + |constants| <= TWO64 && k < |constants|
    ensures |Kept(constants, first, aligned)| == |constants|
    ensures Kept(constants, first, aligned)[k] == ConstantData(first + k, constants[k], UsingSize(aligned, |constants[k]|))
    decreases |constants|
  {
    if k > 0 {
      KeptAt(constants[1..], first + 1, aligned, k - 1);
    } else if |constants| > 1 {
      KeptAt(constants[1..], first + 1, aligned, 0);
    } else {
      assert Kept(constants[1..], first + 1, aligned) == [];
    }
  }

  lemma {:induction false} ConstantsRead(b: seq<Byte>, i: nat, constants: seq<seq<Byte>>, first: nat, aligned: bool)
    requires At(b, i, ConstantsBytes(constants, first)) && first + |constants| <= TWO64 && |b| < TWO64
    ensures ReadConstants(b, i, i + ConstantsSize(constants), aligned)
            == Some(Parsed(Kept(constants, first, aligned), i + ConstantsSize(constants)))
    decreases |constants|
  {
    hide LE, FromLE, Pow256, ReadNat, UsingSize;
    if constants != [] {
      var data, rest := constants[0], ConstantsBytes(constants[1..], first + 1);
      AtSplit(b, i, ConstantBytes(first, data), rest);
      AtSplit(b, i, LE(first, 8) + LE(|data|, 8), data);
      AtSplit(b, i, LE(first, 8), LE(|data|, 8));
      AtWord(b, i, first);
      AtWord(b, i + 8, |data|);
      ConstantsRead(b, i + 16 + |data|, constants[1..], first + 1, aligned);
    }
  }

  // ----- symbols -----

  /** Symbols are numbered by position, and one without a place has none. */
  predicate SymbolsOk(symbols: seq<SymbolData>, first: nat) {
    first + |symbols| < TWO64
    && forall k :: 0 <= k < |symbols| ==>
         symbols[k].id == first + k && (!HasPlace(symbols[k].kind) ==> symbols[k].offset == 0 && symbols[k].moduleId == 0)
  }

  /** Every symbol is a variable or a function; only the last one may also be undefined. */
  predicate Readable(symbols: seq<SymbolData>) {
    forall k :: 0 <= k < |symbols| ==>
      HasPlace(symbols[k].kind) || (k == |symbols| - 1 && symbols[k].kind == UndefinedSymbol)
  }

  function SymbolSection(symbols: seq<SymbolData>, first: nat): seq<Byte> {
    PadTo(SymbolsBytes(symbols, first), SYMBOL_SIZE * |symbols|)
  }

  lemma PlacedSymbolRead(b: seq<Byte>, i: nat, id: Word, s: SymbolData)
    requires At(b, i, SymbolBytes(id, s)) && HasPlace(s.kind) && s.id == id
    ensures |SymbolBytes(id, s)| == SYMBOL_SIZE && i + SYMBOL_SIZE <= |b| && ReadSymbol(b, i) == Some(s)
  {
    var x := LE(id, 8) + (LE(s.offset, 8) + LE(s.moduleId, 2));
    AtSplit(b, i, x, [KindNumber(s.kind)]);
    AtSplit(b, i, LE(id, 8), LE(s.offset, 8) + LE(s.moduleId, 2));
    AtSplit(b, i + 8, LE(s.offset, 8), LE(s.moduleId, 2));
    AtByte(b, i + 18, KindNumber(s.kind));
    AtWord(b, i, id);
    AtWord(b, i + 8, s.offset);
    Pow256Of8();
    AtNat(b, i + 16, s.moduleId, 2);
  }

  lemma SectionStep(symbols: seq<SymbolData>, first: nat)
    requires symbols != [] && HasPlace(symbols[0].kind)
    ensures SymbolSection(symbols, first) == SymbolBytes(first, symbols[0]) + SymbolSection(symbols[1..], first + 1)
  {
    var n := SYMBOL_SIZE * (|symbols| - 1);
    var rest := SymbolsBytes(symbols[1..], first + 1);
    assert SYMBOL_SIZE * |symbols| - |SymbolsBytes(symbols, first)| == n - |rest|;
  }

  /** A symbol written short: its kind stands where the offset is read. */
  lemma ShortSymbol(b: seq<Byte>, i: nat, symbols: seq<SymbolData>, first: nat)
    requires symbols != [] && !HasPlace(symbols[0].kind) && At(b, i, SymbolSection(symbols, first))
    ensures i + SYMBOL_SIZE <= |b| && At(b, i, LE(first, 8)) && b[i + 8] == KindNumber(symbols[0].kind)
    ensures |symbols| > 1 ==> At(b, i + 9, LE(first + 1, 8))
    ensures |symbols| == 1 ==> At(b, i + 9, Zeros(10))
  {
    hide LE;
    var n := SYMBOL_SIZE * |symbols|;
    var rest := SymbolsBytes(symbols[1..], first + 1);
    var id, kind, tail := LE(first, 8), [KindNumber(symbols[0].kind)], rest + Zeros(n - 9 - |rest|);
    assert id + [] + kind == id + kind;
    assert SymbolSection(symbols, first) == id + kind + tail;
    AtSplit(b, i, id + kind, tail);
    AtSplit(b, i, id, kind);
    AtByte(b, i + 8, KindNumber(symbols[0].kind));
    if |symbols| > 1 {
      NextSymbolFirst(symbols, first, n - 9 - |rest|);
      var more := tail[8..];
      assert tail == LE(first + 1, 8) + more;
      AtSplit(b, i + 9, LE(first + 1, 8), more);
    } else {
      assert tail == Zeros(10);
    }
  }

  lemma NextSymbolFirst(symbols: seq<SymbolData>, first: nat, pad: nat)
    requires |symbols| > 1
    ensures var tail := SymbolsBytes(symbols[1..], first + 1) + Zeros(pad);
            |tail| >= 8 && tail[..8] == LE(first + 1, 8)
  {
    hide LE;
    assert symbols[1..][0] == symbols[1];
  }

  lemma {:induction false} ZeroBytes(s: seq<Byte>)
    ensures FromLE(s) == 0 <==> forall k :: 0 <= k < |s| ==> s[k] == 0
    ensures s != [] ==> FromLE(s) % 256 == s[0]
    decreases |s|
  {
    if s != [] {
      var rest := s[1..];
      ZeroBytes(rest);
      LowByte(s[0], FromLE(rest));
      assert forall k :: 0 < k < |s| ==> s[k] == rest[k - 1];
      assert forall k :: 0 <= k < |rest| ==> rest[k] == s[k + 1];
    }
  }

  lemma LowByte(x: Byte, y: nat)
    ensures (x + 256 * y) % 256 == x
  {
    RemainderUnique(x + 256 * y, 256, y, x);
  }

  /** The record that a short symbol is read as is its own only when it is undefined and the last one. */
  lemma ShortSymbolRead(b: seq<Byte>, i: nat, symbols: seq<SymbolData>, first: nat)
    requires symbols != [] && !HasPlace(symbols[0].kind) && SymbolsOk(symbols, first)
    requires At(b, i, SymbolSection(symbols, first))
    ensures i + SYMBOL_SIZE <= |b|
    ensures ReadSymbol(b, i) == Some(symbols[0]) <==> |symbols| == 1 && symbols[0].kind == UndefinedSymbol
  {
    ShortSymbol(b, i, symbols, first);
    AtWord(b, i, first);
    ZeroBytes(b[i + 8..i + 16]);
    ZeroBytes(b[i + 16..i + 18]);
    assert b[i + 8..i + 16][0] == b[i + 8];
    if |symbols| > 1 {
      if ReadSymbol(b, i) == Some(symbols[0]) {
        NextIdIsZero(b, i, first + 1);
      }
    } else {
      LastIsZero(b, i);
    }
  }

  lemma NextIdIsZero(b: seq<Byte>, i: nat, id: Word)
    requires i + SYMBOL_SIZE <= |b| && At(b, i + 9, LE(id, 8)) && id > 0
    ensures !(ReadNat(b, i + 8, 8) == 0 && ReadNat(b, i + 16, 2) == 0)
  {
    ZeroBytes(b[i + 8..i + 16]);
    ZeroBytes(b[i + 16..i + 18]);
    var x := b[i + 9..i + 17];
    ZeroBytes(x);
    WordRoundTrip(id);
    var k :| 0 <= k < 8 && x[k] != 0;
    if k < 7 {
      assert b[i + 8..i + 16][k + 1] == x[k];
    } else {
      assert b[i + 16..i + 18][0] == x[k];
    }
  }

  lemma LastIsZero(b: seq<Byte>, i: nat)
    requires i + SYMBOL_SIZE <= |b| && At(b, i + 9, Zeros(10))
    ensures b[i + 18] == 0 && (b[i + 8] == 0 ==> ReadNat(b, i + 8, 8) == 0 && ReadNat(b, i + 16, 2) == 0)
  {
    var z := b[i + 9..i + 19];
    assert z == Zeros(10);
    assert b[i + 18] == z[9] && b[i + 16..i + 18] == z[7..9] == Zeros(2);
    assert b[i + 8..i + 16] == [b[i + 8]] + z[..7] == [b[i + 8]] + Zeros(7);
    ZeroBytes(b[i + 8..i + 16]);
    ZeroBytes(b[i + 16..i + 18]);
  }

  lemma NoneRead(b: seq<Byte>, i: nat)
    ensures ReadSymbols(b, i, i) == Some(Parsed([], i)) && Readable([])
  {
  }

  lemma SymbolsOkStep(symbols: seq<SymbolData>, first: nat)
    requires symbols != [] && SymbolsOk(symbols, first)
    ensures SymbolsOk(symbols[1..], first + 1) && symbols[0].id == first
  {
  }

  /** The symbols of a section come back exactly when they are readable. */
  lemma {:induction false} SymbolsRead(b: seq<Byte>, i: nat, symbols: seq<SymbolData>, first: nat)
    requires At(b, i, SymbolSection(symbols, first)) && SymbolsOk(symbols, first)
    ensures var end := i + SYMBOL_SIZE * |symbols|;
            ReadSymbols(b, i, end) == Some(Parsed(symbols, end)) <==> Readable(symbols)
    decreases |symbols|
  {
    hide LE, FromLE, Pow256, ReadNat, ReadSymbol, ReadSymbols, SymbolBytes, SymbolSection, Readable, SymbolsOk;
    NoneRead(b, i);
    if symbols != [] {
      SymbolsOkStep(symbols, first);
      var end, rest := i + SYMBOL_SIZE * |symbols|, symbols[1..];
      ReadableStep(symbols);
      assert [symbols[0]] + rest == symbols;
      if HasPlace(symbols[0].kind) {
        SectionStep(symbols, first);
        AtSplit(b, i, SymbolBytes(first, symbols[0]), SymbolSection(rest, first + 1));
        PlacedSymbolRead(b, i, first, symbols[0]);
        SymbolsRead(b, i + SYMBOL_SIZE, rest, first + 1);
        FirstRead(b, i, end, symbols);
      } else {
        ShortSymbolRead(b, i, symbols, first);
        FirstRead(b, i, end, symbols);
        NoneRead(b, end);
      }
    }
  }

  lemma ReadableStep(symbols: seq<SymbolData>)
    requires symbols != []
    ensures HasPlace(symbols[0].kind) ==> (Readable(symbols) <==> Readable(symbols[1..]))
    ensures !HasPlace(symbols[0].kind) ==> (Readable(symbols) <==> |symbols| == 1 && symbols[0].kind == UndefinedSymbol)
  {
    var rest := symbols[1..];
    assert forall k :: 0 <= k < |rest| ==> rest[k] == symbols[k + 1];
    if HasPlace(symbols[0].kind) && Readable(rest) {
      forall k | 0 <= k < |symbols|
        ensures HasPlace(symbols[k].kind) || (k == |symbols| - 1 && symbols[k].kind == UndefinedSymbol)
      {
        if k > 0 {
          assert HasPlace(rest[k - 1].kind) || (k - 1 == |rest| - 1 && rest[k - 1].kind == UndefinedSymbol);
        }
      }
    }
  }

  lemma FirstRead(b: seq<Byte>, i: nat, end: nat, symbols: seq<SymbolData>)
    requires symbols != [] && end == i + SYMBOL_SIZE * |symbols| && i + SYMBOL_SIZE <= |b|
    ensures ReadSymbols(b, i, end) == Some(Parsed(symbols, end)) <==>
            ReadSymbol(b, i) == Some(symbols[0]) && ReadSymbols(b, i + SYMBOL_SIZE, end) == Some(Parsed(symbols[1..], end))
  {
    assert [symbols[0]] + symbols[1..] == symbols;
  }

  // ----- the main object file -----

  /** What the fields of a main object file can hold. */
  predicate MoOk(m: MoState) {
    m.flags < 0x1_0000 && SectionsOf(m).end < TWO64 && SymbolsOk(m.symbols, 0)
  }

  lemma {:induction false} ConstantsCount(constants: seq<seq<Byte>>)
    ensures |constants| <= ConstantsSize(constants)
  {
    if constants != [] {
      ConstantsCount(constants[1..]);
    }
  }

  /** Where the parts of the file are. */
  /** Five parts in a row. */
  lemma FiveParts(b: seq<Byte>, head: seq<Byte>, pad: seq<Byte>, order: seq<Byte>, constants: seq<Byte>, symbols: seq<Byte>, debug: seq<Byte>)
    requires b == head + pad + (order + constants + symbols + debug)
    ensures At(b, 0, head) && At(b, |head| + |pad|, order) && At(b, |head| + |pad| + |order|, constants)
    ensures At(b, |head| + |pad| + |order| + |constants|, symbols)
  {
    hide At;
    Whole(b);
    var n := |head| + |pad|;
    AtSplit(b, 0, head + pad, order + constants + symbols + debug);
    AtSplit(b, 0, head, pad);
    AtSplit(b, n, order + constants + symbols, debug);
    AtSplit(b, n, order + constants, symbols);
    AtSplit(b, n, order, constants);
  }

  lemma MoParts(m: MoState)
    ensures var b, x := MoBytes(m), SectionsOf(m);
            && At(b, 0, MoPreamble(m)) && At(b, 53, SectionTable(m))
            && At(b, x.order, OrderBytes(m.order)) && At(b, x.constants, ConstantsBytes(m.constants, 0))
            && At(b, x.symbols, SymbolSection(m.symbols, 0))
  {
    hide MoPreamble, SectionTable, OrderBytes, ConstantsBytes, SymbolsBytes, ConstantsSize, At;
    var b, x := MoBytes(m), SectionsOf(m);
    var head := MoPreamble(m) + SectionTable(m);
    var order, constants, symbols := OrderBytes(m.order), ConstantsBytes(m.constants, 0), SymbolSection(m.symbols, 0);
    var debug, pad := Zeros(DEBUG_SIZE), Zeros(MO_HEADER_SIZE - |head|);
    assert b == head + pad + (order + constants + symbols + debug);
    FiveParts(b, head, pad, order, constants, symbols, debug);
    AtSplit(b, 0, MoPreamble(m), SectionTable(m));
  }

  lemma Whole(b: seq<Byte>)
    ensures At(b, 0, b)
  {
  }

  /** A section table entry. */
  lemma EntryRead(b: seq<Byte>, i: nat, kind: Byte, offset: Word, size: Word)
    requires At(b, i, SectionInfo(kind, offset, size))
    ensures i + 17 <= |b| && b[i] == kind && ReadNat(b, i + 1, 8) == offset && ReadNat(b, i + 9, 8) == size
  {
    AtSplit(b, i, [kind] + LE(offset, 8), LE(size, 8));
    AtSplit(b, i, [kind], LE(offset, 8));
    AtByte(b, i, kind);
    AtWord(b, i + 1, offset);
    AtWord(b, i + 9, size);
  }

  lemma TableRead(b: seq<Byte>, m: MoState)
    requires At(b, 53, SectionTable(m)) && SectionsOf(m).end < TWO64
    ensures var x := SectionsOf(m);
            && |b| >= 121
            && b[53] == LINKING_ORDER && ReadNat(b, 54, 8) == x.order && ReadNat(b, 62, 8) == x.constants - x.order
            && b[70] == CONSTANTS && ReadNat(b, 71, 8) == x.constants && ReadNat(b, 79, 8) == x.symbols - x.constants
            && b[87] == SYMBOLS && ReadNat(b, 88, 8) == x.symbols && ReadNat(b, 96, 8) == x.debug - x.symbols
            && b[104] == DEBUG && ReadNat(b, 105, 8) == x.debug && ReadNat(b, 113, 8) == x.end - x.debug
  {
    hide SectionInfo, ReadNat;
    var x := SectionsOf(m);
    var e1 := SectionInfo(LINKING_ORDER, x.order, x.constants - x.order);
    var e2 := SectionInfo(CONSTANTS, x.constants, x.symbols - x.constants);
    var e3 := SectionInfo(SYMBOLS, x.symbols, x.debug - x.symbols);
    var e4 := SectionInfo(DEBUG, x.debug, x.end - x.debug);
    AtSplit(b, 53, e1 + e2 + e3, e4);
    AtSplit(b, 53, e1 + e2, e3);
    AtSplit(b, 53, e1, e2);
    EntryRead(b, 53, LINKING_ORDER, x.order, x.constants - x.order);
    EntryRead(b, 70, CONSTANTS, x.constants, x.symbols - x.constants);
    EntryRead(b, 87, SYMBOLS, x.symbols, x.debug - x.symbols);
    EntryRead(b, 104, DEBUG, x.debug, x.end - x.debug);
  }

  lemma {:induction false} NameRead(name: seq<Byte>, n: nat)
    requires forall k :: 0 <= k < |name| ==> name[k] != 0
    ensures UntilZero(name + Zeros(n)) == name
    decreases |name|
  {
    if name == [] {
      assert name + Zeros(n) == Zeros(n);
    } else {
      assert (name + Zeros(n))[1..] == name[1..] + Zeros(n);
      NameRead(name[1..], n);
    }
  }

  lemma PreambleRead(b: seq<Byte>, m: MoState)
    requires At(b, 0, MoPreamble(m)) && |b| >= MO_HEADER_SIZE && m.flags < 0x1_0000
    ensures b[..MAGIC_SIZE] == MoMagic()
    ensures EmptyState(b) == LinkingState(m.version, m.flags, ModulePrefix(), ModuleExtension(), [], [], 0, [])
  {
    var prefix, extension := PadTo(ModulePrefix(), PREFIX_SIZE), PadTo(ModuleExtension(), EXTENSION_SIZE);
    AtSplit(b, 0, MoMagic() + m.version + LE(m.flags, 2), prefix + extension);
    AtSplit(b, 11, prefix, extension);
    AtSplit(b, 0, MoMagic() + m.version, LE(m.flags, 2));
    AtSplit(b, 0, MoMagic(), m.version);
    Pow256Of8();
    AtNat(b, 9, m.flags, 2);
    NameRead(ModulePrefix(), 23);
    NameRead(ModuleExtension(), 5);
  }

  /** The state the linker should have. */
  function Expected(m: MoState, aligned: bool): LinkingState
    requires |m.constants| <= TWO64
  {
    var constants := Kept(m.constants, 0, aligned);
    LinkingState(m.version, m.flags, ModulePrefix(), ModuleExtension(), m.order, constants, SumSizes(constants), m.symbols)
  }

  /**
   * Reading a written main object file gives back flags, names, linking order, constants and symbols,
   * each loop stopping at its section's end, exactly when the symbols are readable.
   */
  lemma MoRoundTrip(m: MoState, aligned: bool)
    requires MoOk(m)
    ensures |m.constants| <= TWO64
    ensures ReadMo(MoBytes(m), aligned) == Some(Expected(m, aligned)) <==> Readable(m.symbols)
  {
    hide ReadNat, ReadOrder, ReadConstants, ReadSymbols, Kept, Readable, EmptyState, ConstantsSize, ReadMo, MoBytes, Expected,
         OrderBytes, ConstantsBytes, SymbolsBytes, SectionTable, MoPreamble, SymbolsOk;
    var b, x := MoBytes(m), SectionsOf(m);
    ConstantsCount(m.constants);
    MoParts(m);
    TableRead(b, m);
    PreambleRead(b, m);
    OrderRead(b, x.order, m.order);
    ConstantsRead(b, x.constants, m.constants, 0, aligned);
    SymbolsRead(b, x.symbols, m.symbols, 0);
    SectionsCombined(b, m, aligned);
  }

  lemma SectionsCombined(b: seq<Byte>, m: MoState, aligned: bool)
    requires |m.constants| <= TWO64 && |b| == SectionsOf(m).end < TWO64 && b[..MAGIC_SIZE] == MoMagic()
    requires EmptyState(b) == LinkingState(m.version, m.flags, ModulePrefix(), ModuleExtension(), [], [], 0, [])
    requires var x := SectionsOf(m);
             && b[53] == LINKING_ORDER && ReadNat(b, 54, 8) == x.order && ReadNat(b, 62, 8) == x.constants - x.order
             && b[70] == CONSTANTS && ReadNat(b, 71, 8) == x.constants && ReadNat(b, 79, 8) == x.symbols - x.constants
             && b[87] == SYMBOLS && ReadNat(b, 88, 8) == x.symbols && ReadNat(b, 96, 8) == x.debug - x.symbols
             && b[104] == DEBUG && ReadNat(b, 105, 8) == x.debug && ReadNat(b, 113, 8) == x.end - x.debug
             && ReadOrder(b, x.order, x.constants) == Some(Parsed(m.order, x.constants))
             && ReadConstants(b, x.constants, x.symbols, aligned) == Some(Parsed(Kept(m.constants, 0, aligned), x.symbols))
             && (ReadSymbols(b, x.symbols, x.debug) == Some(Parsed(m.symbols, x.debug)) <==> Readable(m.symbols))
    ensures ReadMo(b, aligned) == Some(Expected(m, aligned)) <==> Readable(m.symbols)
  {
    hide ReadNat, ReadOrder, ReadConstants, ReadSymbols, Kept, Readable, EmptyState, ConstantsSize;
    var x := SectionsOf(m);
    var constants := Kept(m.constants, 0, aligned);
    var s0 := EmptyState(b);
    assert [] + m.order == m.order && [] + constants == constants && [] + m.symbols == m.symbols;
    var s1 := s0.(order := m.order);
    var s2 := s1.(constants := constants, constantsSize := SumSizes(constants));
    assert ReadSection(b, 53, aligned, s0) == Some(s1);
    assert ReadSection(b, 70, aligned, s1) == Some(s2);
    var p := ReadSymbols(b, x.symbols, x.debug);
    SymbolsStop(b, x.symbols, x.debug, |m.symbols|);
    if p.Some? {
      assert [] + p.value.items == p.value.items;
      var s3 := s2.(symbols := p.value.items);
      assert ReadSection(b, 87, aligned, s2) == Some(s3);
      assert ReadSection(b, 104, aligned, s3) == Some(s3);
      assert ReadSections(b, 104, 1, aligned, s3) == Some(s3);
      assert ReadSections(b, 53, 4, aligned, s0) == Some(s3);
    } else {
      assert ReadSection(b, 87, aligned, s2) == None;
      assert ReadSections(b, 87, 2, aligned, s2) == None;
      assert ReadSections(b, 53, 4, aligned, s0) == None;
    }
  }

  /** The symbols loop stops at the end of a section of whole records. */
  lemma {:induction false} SymbolsStop(b: seq<Byte>, i: nat, end: nat, n: nat)
    requires end == i + SYMBOL_SIZE * n
    ensures ReadSymbols(b, i, end).Some? ==> ReadSymbols(b, i, end).value.index == end
    decreases n
  {
    if n > 0 && ReadSymbols(b, i, end).Some? {
      SymbolsStop(b, i + SYMBOL_SIZE, end, n - 1);
    }
  }
}
